/** Rotations, client reissues and readers of one credential store at the same time
    (einkgrpc/certmanager.go). A rotation holds the lock from its first assignment to its last
    file; a reissue drops it before it writes its two files. No write fails here. */
module CredentialInterleaving {
  import opened Wrappers
  import opened Credentials
  import TokenAuth

  datatype Phase = Idle
                 | Rotating(pending: set<FileName>)
                 | WritingCert(cer: Blob, key: Blob)
                 | WritingKey(key: Blob)

  datatype State = State(creds: Creds, files: Files, next: nat, lock: Option<nat>, threads: map<nat, Phase>)

  datatype Action = BeginRotate(minted: Creds)
                  | WriteFile(name: FileName)
                  | EndRotate
                  | SetClient(cer: Blob, key: Blob)
                  | WriteClientCert
                  | WriteClientKey

  ghost predicate Enabled(s: State, t: nat, a: Action) {
    && t in s.threads
    && var p := s.threads[t];
       match a
       case BeginRotate(minted) =>
         p.Idle? && s.lock.None? && forall f: FileName :: minted.Get(f).origin == Generation(s.next)
       case WriteFile(name) => p.Rotating? && name in p.pending
       case EndRotate => p == Rotating({})
       case SetClient(cer, key) =>
         p.Idle? && s.lock.None? && cer.origin == Generation(s.next) && key.origin == Generation(s.next)
       case WriteClientCert => p.WritingCert?
       case WriteClientKey => p.WritingKey?
  }

  ghost function Apply(s: State, t: nat, a: Action): State
    requires Enabled(s, t, a)
  {
    var p := s.threads[t];
    match a
    case BeginRotate(minted) =>
      s.(creds := minted, next := s.next + 1, lock := Some(t), threads := s.threads[t := Rotating(ALL)])
    case WriteFile(name) =>
      s.(files := s.files[name := s.creds.Get(name)], threads := s.threads[t := Rotating(p.pending - {name})])
    case EndRotate => s.(lock := None, threads := s.threads[t := Idle])
    case SetClient(cer, key) =>
      s.(creds := Reissued(s.creds, (cer, key)), next := s.next + 1, threads := s.threads[t := WritingCert(cer, key)])
    case WriteClientCert => s.(files := s.files[ClientCertPem := p.cer], threads := s.threads[t := WritingKey(p.key)])
    case WriteClientKey => s.(files := s.files[ClientKeyPem := p.key], threads := s.threads[t := Idle])
  }

  type Schedule = seq<(nat, Action)>

  ghost predicate Legal(s: State, sched: Schedule)
    decreases |sched|
  {
    sched != [] ==> Enabled(s, sched[0].0, sched[0].1) && Legal(Apply(s, sched[0].0, sched[0].1), sched[1..])
  }

  ghost function Exec(s: State, sched: Schedule): State
    requires Legal(s, sched)
    decreases |sched|
  {
    if sched == [] then s else Exec(Apply(s, sched[0].0, sched[0].1), sched[1..])
  }

  predicate Quiet(s: State) {
    s.lock.None? && forall t | t in s.threads :: s.threads[t].Idle?
  }

  /** Both halves of a pair, and the tokens, belong together. */
  predicate OneGeneration(c: Creds, bound: nat) {
    && c.serverCer.origin.Generation? && c.serverCer.origin.n < bound
    && c.serverKey.origin == c.token.origin == c.adminTok.origin == c.serverCer.origin
    && c.clientCer.origin.Generation? && c.clientCer.origin.n < bound
    && c.clientKey.origin == c.clientCer.origin
  }

  predicate ClientFile(f: FileName) { f == ClientCertPem || f == ClientKeyPem }

  /** The files a rotation in progress has yet to write. */
  function Pending(s: State): set<FileName> {
    if s.lock.Some? && s.lock.value in s.threads && s.threads[s.lock.value].Rotating?
    then s.threads[s.lock.value].pending else {}
  }

  ghost predicate Inv(s: State) {
    && OneGeneration(s.creds, s.next)
    && (forall t | t in s.threads :: s.threads[t].Rotating? <==> s.lock == Some(t))
    && (s.lock.Some? ==> s.lock.value in s.threads)
    && (forall f: FileName | !ClientFile(f) && f !in Pending(s) :: f in s.files && s.files[f] == s.creds.Get(f))
  }

  lemma MintedFields(c: Creds, n: nat)
    requires forall f: FileName :: c.Get(f).origin == Generation(n)
    ensures OneGeneration(c, n + 1) && c.serverCer.origin == c.clientCer.origin == Generation(n)
  {
    assert c.Get(CertPem) == c.serverCer && c.Get(KeyPem) == c.serverKey && c.Get(ClientCertPem) == c.clientCer;
    assert c.Get(ClientKeyPem) == c.clientKey && c.Get(TokenTxt) == c.token && c.Get(AdminTokenTxt) == c.adminTok;
  }

  lemma InvStep(s: State, t: nat, a: Action)
    requires Inv(s) && Enabled(s, t, a)
    ensures Inv(Apply(s, t, a))
  {
    var n := Apply(s, t, a);
    if a.BeginRotate? {
      MintedFields(a.minted, s.next);
    }
    forall f: FileName | !ClientFile(f) && f !in Pending(n) ensures f in n.files && n.files[f] == n.creds.Get(f) {
      if a.BeginRotate? {
        AllNames(f);
      }
    }
  }

  /** In every interleaving, even in the middle of a rotation, the server pair with its tokens and
      the client pair in memory each stay of one generation, so that a reader under the lock never
      sees a torn pair; and whenever no rotation is in progress, the server files and the tokens on
      disk are those in memory. */
  lemma {:induction false} PairsStayTogether(s: State, sched: Schedule)
    requires Inv(s) && Legal(s, sched)
    ensures Inv(Exec(s, sched))
    ensures
      var n := Exec(s, sched);
      && OneGeneration(n.creds, n.next)
      && (n.lock.None? ==> forall f: FileName | !ClientFile(f) :: f in n.files && n.files[f] == n.creds.Get(f))
    decreases |sched|
  {
    if sched != [] {
      InvStep(s, sched[0].0, sched[0].1);
      PairsStayTogether(Apply(s, sched[0].0, sched[0].1), sched[1..]);
    }
  }

  function Rotations(sched: Schedule): nat {
    if sched == [] then 0 else (if sched[0].1.BeginRotate? then 1 else 0) + Rotations(sched[1..])
  }

  function Reissues(sched: Schedule): nat {
    if sched == [] then 0 else (if sched[0].1.SetClient? then 1 else 0) + Reissues(sched[1..])
  }

  lemma Before(s: State, t: nat, a: Action, rest: Schedule) returns (sched: Schedule)
    requires Enabled(s, t, a) && Legal(Apply(s, t, a), rest)
    ensures Legal(s, sched) && Exec(s, sched) == Exec(Apply(s, t, a), rest)
    ensures Rotations(sched) == Rotations(rest) + if a.BeginRotate? then 1 else 0
    ensures Reissues(sched) == Reissues(rest) + if a.SetClient? then 1 else 0
    ensures sched == [(t, a)] + rest
  {
    sched := [(t, a)] + rest;
    assert sched[1..] == rest;
  }

  /** The server's generation only grows, and only by rotations. */
  lemma {:induction false} ServerGeneration(s: State, sched: Schedule)
    requires Inv(s) && Legal(s, sched)
    ensures
      var c, d := s.creds, Exec(s, sched).creds;
      && d.serverCer.origin.Generation? && c.serverCer.origin.n <= d.serverCer.origin.n
      && (Rotations(sched) == 0 <==> c.serverCer.origin == d.serverCer.origin)
      && (Rotations(sched) == 0 ==> c.serverCer == d.serverCer && c.serverKey == d.serverKey
                                    && c.token == d.token && c.adminTok == d.adminTok)
    decreases |sched|
  {
    if sched != [] {
      if sched[0].1.BeginRotate? {
        MintedFields(sched[0].1.minted, s.next);
      }
      InvStep(s, sched[0].0, sched[0].1);
      ServerGeneration(Apply(s, sched[0].0, sched[0].1), sched[1..]);
      PairsStayTogether(Apply(s, sched[0].0, sched[0].1), sched[1..]);
    }
  }

  /** Server.Start takes the lock once for the certificate and again for the key: the key is never
      older, and belongs to the certificate exactly when no rotation began in between. */
  lemma SplitKeypairRead(s: State, sched: Schedule)
    requires Inv(s) && Legal(s, sched)
    ensures
      var cer, key := s.creds.serverCer, Exec(s, sched).creds.serverKey;
      && key.origin.Generation? && cer.origin.n <= key.origin.n
      && (cer.origin == key.origin <==> Rotations(sched) == 0)
  {
    ServerGeneration(s, sched);
    PairsStayTogether(s, sched);
  }

  /** The client pair's generation only grows, and by every rotation and reissue. */
  lemma {:induction false} ClientGeneration(s: State, sched: Schedule)
    requires Inv(s) && Legal(s, sched)
    ensures
      var c, d := s.creds, Exec(s, sched).creds;
      && Inv(Exec(s, sched))
      && c.clientCer.origin.n <= d.clientCer.origin.n
      && (Rotations(sched) + Reissues(sched) == 0 <==> c.clientCer.origin == d.clientCer.origin)
    decreases |sched|
  {
    if sched != [] {
      if sched[0].1.BeginRotate? {
        MintedFields(sched[0].1.minted, s.next);
      }
      InvStep(s, sched[0].0, sched[0].1);
      ClientGeneration(Apply(s, sched[0].0, sched[0].1), sched[1..]);
    }
  }

  /** The ReissueClientCert handler sets a new pair and then reads back the certificate, the key and
      the certificate for its fingerprint, with the lock dropped in between. The certificate and
      key it answers with belong together exactly when nobody set a pair between those two reads,
      and all three are its own exactly when nobody did since. */
  lemma ReissueAnswerIff(s: State, t: nat, cer: Blob, key: Blob, first: Schedule, second: Schedule, third: Schedule)
    requires Inv(s) && Enabled(s, t, SetClient(cer, key)) && Legal(Apply(s, t, SetClient(cer, key)), first)
    requires
      var s1 := Exec(Apply(s, t, SetClient(cer, key)), first);
      Legal(s1, second) && Legal(Exec(s1, second), third)
    ensures
      var s1 := Exec(Apply(s, t, SetClient(cer, key)), first);
      var s2 := Exec(s1, second);
      var s3 := Exec(s2, third);
      && (s1.creds.clientCer.origin == s2.creds.clientKey.origin <==> Rotations(second) + Reissues(second) == 0)
      && (s1.creds.clientCer.origin == s2.creds.clientKey.origin == s3.creds.clientCer.origin == cer.origin <==>
          Rotations(first) + Reissues(first) + Rotations(second) + Reissues(second) + Rotations(third) + Reissues(third) == 0)
  {
    var s0 := Apply(s, t, SetClient(cer, key));
    InvStep(s, t, SetClient(cer, key));
    ClientGeneration(s0, first);
    ClientGeneration(Exec(s0, first), second);
    ClientGeneration(Exec(Exec(s0, first), second), third);
  }

  /** TokenAuth.check reads the operator token first and the admin token later. */
  predicate SplitAccepts(tok: string, first: Creds, later: Creds) {
    tok != "" && (tok == first.token.text || tok == later.adminTok.text)
  }

  /** It is the check of any call whose header bears that token. */
  lemma SplitAcceptsIsCheck(header: string, tok: string, others: seq<string>, first: Creds, later: Creds)
    requires TokenAuth.Bears(header, tok)
    ensures TokenAuth.Check(Some([header] + others), first.token.text, later.adminTok.text) == Success(())
       <==> SplitAccepts(tok, first, later)
  {
    TokenAuth.BornTokenIsExtracted(header, tok);
  }

  /** Without a rotation in between, that accepts exactly the two current tokens. */
  lemma SplitTokenCheck(tok: string, s: State, sched: Schedule)
    requires Inv(s) && Legal(s, sched) && Rotations(sched) == 0
    ensures SplitAccepts(tok, s.creds, Exec(s, sched).creds) <==> tok != "" && tok in {s.creds.token.text, s.creds.adminTok.text}
  {
    ServerGeneration(s, sched);
  }

  /** The rotation of `t` is over, all its files written. */
  function Finished(s: State, t: nat): State
    requires t in s.threads && s.threads[t].Rotating?
  {
    s.(files := Written(s.files, s.creds, s.threads[t].pending), lock := None, threads := s.threads[t := Idle])
  }

  lemma FinishedNext(s: State, t: nat, f: FileName)
    requires Enabled(s, t, WriteFile(f))
    ensures Finished(Apply(s, t, WriteFile(f)), t) == Finished(s, t)
  {
    var pending := s.threads[t].pending;
    assert Written(s.files[f := s.creds.Get(f)], s.creds, pending - {f}) == Written(s.files, s.creds, pending);
  }

  /** A rotation under way can always finish, changing nothing but files. */
  lemma {:induction false} RotationFinishes(s: State, t: nat) returns (sched: Schedule)
    requires t in s.threads && s.threads[t].Rotating?
    ensures Legal(s, sched) && Exec(s, sched) == Finished(s, t)
    ensures Rotations(sched) == Reissues(sched) == 0
    decreases s.threads[t].pending
  {
    if s.threads[t].pending == {} {
      sched := Before(s, t, EndRotate, []);
      assert Written(s.files, s.creds, {}) == s.files;
    } else {
      var f :| f in s.threads[t].pending;
      FinishedNext(s, t, f);
      sched := RotationFinishes(Apply(s, t, WriteFile(f)), t);
      sched := Before(s, t, WriteFile(f), sched);
    }
  }

  /** With a rotation in between, the check can turn away the admin token that was current when it
      began, although by then it has not looked at that token at all. */
  lemma RotationTurnsAwayAdmin(s: State, t: nat, minted: Creds) returns (sched: Schedule)
    requires Inv(s) && Quiet(s) && t in s.threads
    requires forall f: FileName :: minted.Get(f).origin == Generation(s.next)
    requires s.creds.adminTok.text !in {s.creds.token.text, minted.adminTok.text}
    ensures Legal(s, sched) && Exec(s, sched).lock.None?
    ensures !SplitAccepts(s.creds.adminTok.text, s.creds, Exec(s, sched).creds)
  {
    sched := RotationFinishes(Apply(s, t, BeginRotate(minted)), t);
    sched := Before(s, t, BeginRotate(minted), sched);
  }

  /** No rotation of the schedule mints this text as its admin token. */
  predicate NeverMinted(sched: Schedule, text: string) {
    forall k | 0 <= k < |sched| && sched[k].1.BeginRotate? :: sched[k].1.minted.adminTok.text != text
  }

  lemma {:induction false} AdminTextGone(s: State, sched: Schedule, text: string)
    requires Legal(s, sched) && NeverMinted(sched, text)
    requires s.creds.adminTok.text != text || Rotations(sched) > 0
    ensures Exec(s, sched).creds.adminTok.text != text
    decreases |sched|
  {
    if sched != [] {
      assert forall k | 0 <= k < |sched[1..]| :: sched[1..][k] == sched[k + 1];
      AdminTextGone(Apply(s, sched[0].0, sched[0].1), sched[1..], text);
    }
  }

  /** And in general: as tokens do not repeat, the check accepts the admin token that was current
      when it began exactly when no rotation came in between. */
  lemma AdminAcceptedIff(s: State, sched: Schedule)
    requires Inv(s) && Legal(s, sched)
    requires s.creds.adminTok.text !in {"", s.creds.token.text} && NeverMinted(sched, s.creds.adminTok.text)
    ensures SplitAccepts(s.creds.adminTok.text, s.creds, Exec(s, sched).creds) <==> Rotations(sched) == 0
  {
    if Rotations(sched) == 0 {
      ServerGeneration(s, sched);
    } else {
      AdminTextGone(s, sched, s.creds.adminTok.text);
    }
  }

  /** At most one operation that changes the client pair is under way. */
  predicate Solitary(s: State) {
    forall t, u | t in s.threads && u in s.threads && !s.threads[t].Idle? && !s.threads[u].Idle? :: t == u
  }

  ghost predicate AlwaysSolitary(s: State, sched: Schedule)
    requires Legal(s, sched)
    decreases |sched|
  {
    Solitary(s) && (sched != [] ==> AlwaysSolitary(Apply(s, sched[0].0, sched[0].1), sched[1..]))
  }

  /** What the one operation under way still has to write of the client pair. */
  predicate ClientSync(s: State) {
    && (forall f: FileName | ClientFile(f) && (f in s.files ==> s.files[f] != s.creds.Get(f)) ::
          exists t :: t in s.threads && Owes(s.threads[t], f))
    && (forall t | t in s.threads && s.threads[t].WritingCert? ::
          s.threads[t].cer == s.creds.clientCer && s.threads[t].key == s.creds.clientKey)
    && (forall t | t in s.threads && s.threads[t].WritingKey? :: s.threads[t].key == s.creds.clientKey)
  }

  predicate Owes(p: Phase, f: FileName) {
    match p
    case Idle => false
    case Rotating(pending) => f in pending
    case WritingCert(_, _) => ClientFile(f)
    case WritingKey(_) => f == ClientKeyPem
  }

  lemma OnlyMover(s: State, t: nat, a: Action, u: nat)
    requires Enabled(s, t, a) && Solitary(s) && Solitary(Apply(s, t, a)) && u in s.threads && u != t
    ensures s.threads[u].Idle?
  {
    var n := Apply(s, t, a);
    assert n.threads[u] == s.threads[u];
    assert !s.threads[t].Idle? || !n.threads[t].Idle?;
  }

  /** A store at rest whose directory agrees with memory, such as a successful run of opening,
      rotations and reissues leaves, is a start for everything above. */
  lemma QuietStart(s: State)
    requires Quiet(s) && InSync(s.creds, s.files) && OneGeneration(s.creds, s.next)
    ensures Inv(s) && ClientSync(s) && Solitary(s)
  {
  }

  lemma ClientStep(s: State, t: nat, a: Action)
    requires Inv(s) && Enabled(s, t, a) && Solitary(s) && Solitary(Apply(s, t, a)) && ClientSync(s)
    ensures ClientSync(Apply(s, t, a))
  {
    var n := Apply(s, t, a);
    forall u | u in s.threads && u != t ensures s.threads[u].Idle? {
      OnlyMover(s, t, a, u);
    }
    forall f: FileName | ClientFile(f) && (f in n.files ==> n.files[f] != n.creds.Get(f))
      ensures exists u :: u in n.threads && Owes(n.threads[u], f)
    {
      if a.BeginRotate? {
        AllNames(f);
      }
      if s.threads[t].Idle? {
        assert Owes(n.threads[t], f);
      } else {
        assert f in s.files ==> s.files[f] != s.creds.Get(f);
        var u :| u in s.threads && Owes(s.threads[u], f);
        assert u == t;
        assert Owes(n.threads[t], f);
      }
    }
  }

  lemma {:induction false} ClientExec(s: State, sched: Schedule)
    requires Inv(s) && Legal(s, sched) && AlwaysSolitary(s, sched) && ClientSync(s)
    ensures ClientSync(Exec(s, sched))
    decreases |sched|
  {
    if sched != [] {
      InvStep(s, sched[0].0, sched[0].1);
      ClientStep(s, sched[0].0, sched[0].1);
      ClientExec(Apply(s, sched[0].0, sched[0].1), sched[1..]);
    }
  }

  /** The client files too are those in memory once everything is quiet, provided no two operations
      that change the client pair ever overlapped. */
  lemma ClientFilesAgree(s: State, sched: Schedule)
    requires Inv(s) && ClientSync(s) && Legal(s, sched) && AlwaysSolitary(s, sched)
    requires Quiet(Exec(s, sched))
    ensures
      var n := Exec(s, sched);
      forall f: FileName :: f in n.files && n.files[f] == n.creds.Get(f)
  {
    ClientExec(s, sched);
    PairsStayTogether(s, sched);
  }

  predicate Sets(a: Action) { a.BeginRotate? || a.SetClient? }

  predicate Writes(a: Action, f: FileName) {
    || a == WriteFile(f)
    || (a.WriteClientCert? && f == ClientCertPem)
    || (a.WriteClientKey? && f == ClientKeyPem)
  }

  /** The thread that last set the client pair in memory, and the one that last wrote a file. */
  function LastSetter(sched: Schedule, before: Option<nat>): Option<nat>
    decreases |sched|
  {
    if sched == [] then before
    else LastSetter(sched[1..], if Sets(sched[0].1) then Some(sched[0].0) else before)
  }

  function LastWriter(sched: Schedule, f: FileName, before: Option<nat>): Option<nat>
    decreases |sched|
  {
    if sched == [] then before
    else LastWriter(sched[1..], f, if Writes(sched[0].1, f) then Some(sched[0].0) else before)
  }

  predicate Old(b: Blob, next: nat) { b.origin.Generation? ==> b.origin.n < next }

  /** No value in a file or on its way to one is newer than the counter. */
  predicate NothingNewer(s: State) {
    && (forall f | f in s.files :: Old(s.files[f], s.next))
    && (forall t | t in s.threads && s.threads[t].WritingCert? ::
          Old(s.threads[t].cer, s.next) && Old(s.threads[t].key, s.next))
    && (forall t | t in s.threads && s.threads[t].WritingKey? :: Old(s.threads[t].key, s.next))
  }

  /** Only the last setter's pending values are those in memory. */
  predicate Held(s: State, setter: nat) {
    && (forall t | t in s.threads && s.threads[t].Rotating? :: t == setter)
    && (forall t | t in s.threads && s.threads[t].WritingCert? ::
          if t == setter then s.threads[t].cer == s.creds.clientCer && s.threads[t].key == s.creds.clientKey
          else s.threads[t].cer.origin != s.creds.clientCer.origin && s.threads[t].key.origin != s.creds.clientKey.origin)
    && (forall t | t in s.threads && s.threads[t].WritingKey? ::
          if t == setter then s.threads[t].key == s.creds.clientKey
          else s.threads[t].key.origin != s.creds.clientKey.origin)
  }

  predicate Agrees(s: State, f: FileName) { f in s.files && s.files[f] == s.creds.Get(f) }

  predicate Tracked(s: State, f: FileName, setter: Option<nat>, writer: Option<nat>) {
    if setter.None? then
      writer.None? && Agrees(s, f) && forall t | t in s.threads :: s.threads[t].Idle?
    else
      && setter.value in s.threads
      && Held(s, setter.value)
      && (Agrees(s, f) <==> writer == setter && !Owes(s.threads[setter.value], f))
  }

  lemma NothingNewerStep(s: State, t: nat, a: Action)
    requires Inv(s) && NothingNewer(s) && Enabled(s, t, a)
    ensures NothingNewer(Apply(s, t, a))
  {
    if a.WriteFile? {
      var c := s.creds;
      match a.name
      case CertPem => assert Old(c.serverCer, s.next);
      case KeyPem => assert Old(c.serverKey, s.next);
      case ClientCertPem => assert Old(c.clientCer, s.next);
      case ClientKeyPem => assert Old(c.clientKey, s.next);
      case TokenTxt => assert Old(c.token, s.next);
      case AdminTokenTxt => assert Old(c.adminTok, s.next);
    }
  }

  lemma HeldStep(s: State, t: nat, a: Action, setter: Option<nat>)
    requires Inv(s) && NothingNewer(s) && Enabled(s, t, a)
    requires setter.Some? ==> setter.value in s.threads && Held(s, setter.value)
    requires setter.None? ==> forall u | u in s.threads :: s.threads[u].Idle?
    ensures Sets(a) ==> Held(Apply(s, t, a), t)
    ensures !Sets(a) && setter.Some? ==> Held(Apply(s, t, a), setter.value)
  {
    if a.BeginRotate? {
      MintedFields(a.minted, s.next);
    }
  }

  lemma TrackedStep(s: State, t: nat, a: Action, f: FileName, setter: Option<nat>, writer: Option<nat>)
    requires Inv(s) && NothingNewer(s) && Enabled(s, t, a) && ClientFile(f) && Tracked(s, f, setter, writer)
    ensures Tracked(Apply(s, t, a), f, if Sets(a) then Some(t) else setter, if Writes(a, f) then Some(t) else writer)
  {
    HeldStep(s, t, a, setter);
    if a.BeginRotate? {
      MintedFields(a.minted, s.next);
      AllNames(f);
    }
  }

  lemma {:induction false} TrackedExec(s: State, sched: Schedule, f: FileName, setter: Option<nat>, writer: Option<nat>)
    requires Inv(s) && NothingNewer(s) && Legal(s, sched) && ClientFile(f) && Tracked(s, f, setter, writer)
    ensures Tracked(Exec(s, sched), f, LastSetter(sched, setter), LastWriter(sched, f, writer))
    decreases |sched|
  {
    if sched != [] {
      var (t, a) := sched[0];
      InvStep(s, t, a);
      NothingNewerStep(s, t, a);
      TrackedStep(s, t, a, f, setter, writer);
      TrackedExec(Apply(s, t, a), sched[1..], f, if Sets(a) then Some(t) else setter, if Writes(a, f) then Some(t) else writer);
    }
  }

  /** And in general, overlapping or not: once everything is quiet a client file is the one in memory
      exactly when the thread that last wrote it is the one that last set the pair. */
  lemma ClientFileAgreesIff(s: State, sched: Schedule, f: FileName)
    requires Inv(s) && NothingNewer(s) && Quiet(s) && ClientFile(f) && Agrees(s, f)
    requires Legal(s, sched) && Quiet(Exec(s, sched))
    ensures Agrees(Exec(s, sched), f) <==> LastWriter(sched, f, None) == LastSetter(sched, None)
  {
    TrackedExec(s, sched, f, None, None);
  }

  /** `gens` gives the generation of each thread's latest rotation or reissue; all differ. */
  predicate Marked(s: State, gens: map<nat, nat>) {
    && (forall t | t in gens :: t in s.threads && gens[t] < s.next)
    && (forall t, u | t in gens && u in gens && t != u :: gens[t] != gens[u])
    && (forall t | t in s.threads && !s.threads[t].Idle? :: t in gens && Carries(s, s.threads[t], Generation(gens[t])))
  }

  /** What an operation still has to write of the client pair is of that origin. */
  predicate Carries(s: State, p: Phase, origin: Origin) {
    match p
    case Idle => true
    case Rotating(_) => forall f: FileName :: s.creds.Get(f).origin == origin
    case WritingCert(cer, key) => cer.origin == key.origin == origin
    case WritingKey(key) => key.origin == origin
  }

  /** The file is the work of its last writer's latest operation, unless that is still to come; with
      no writer it is as `before`, and no operation has finished with it. */
  predicate WorkOf(s: State, gens: map<nat, nat>, f: FileName, writer: Option<nat>, before: Origin)
  {
    && f in s.files
    && (forall t | t in gens && writer.None? :: t in s.threads && Owes(s.threads[t], f))
    && if writer.None? then s.files[f].origin == before
       else
         && writer.value in gens && writer.value in s.threads
         && (!Owes(s.threads[writer.value], f) ==> s.files[f].origin == Generation(gens[writer.value]))
  }

  function Next(gens: map<nat, nat>, next: nat, t: nat, a: Action): map<nat, nat> {
    if Sets(a) then gens[t := next] else gens
  }

  lemma MarkedStep(s: State, t: nat, a: Action, gens: map<nat, nat>)
    requires Inv(s) && Enabled(s, t, a) && Marked(s, gens)
    ensures Marked(Apply(s, t, a), Next(gens, s.next, t, a))
  {
    if a.BeginRotate? {
      MintedFields(a.minted, s.next);
    }
  }

  lemma WorkOfStep(s: State, t: nat, a: Action, gens: map<nat, nat>, f: FileName, writer: Option<nat>, before: Origin)
    requires Enabled(s, t, a) && Marked(s, gens) && ClientFile(f) && WorkOf(s, gens, f, writer, before)
    ensures WorkOf(Apply(s, t, a), Next(gens, s.next, t, a), f,
                   if Writes(a, f) then Some(t) else writer, before)
  {
    var n := Apply(s, t, a);
    OwesStep(s, t, a, f);
    if Writes(a, f) {
      assert n.files[f].origin == Generation(gens[t]);
    } else {
      assert n.files == s.files || n.files[f] == s.files[f];
    }
  }

  lemma OwesStep(s: State, t: nat, a: Action, f: FileName)
    requires Enabled(s, t, a) && ClientFile(f)
    ensures
      var n := Apply(s, t, a);
      && (Owes(n.threads[t], f) <==> Sets(a) || (Owes(s.threads[t], f) && !Writes(a, f)))
      && forall u | u in s.threads && u != t :: n.threads[u] == s.threads[u]
  {
    AllNames(f);
  }

  lemma {:induction false} WorkOfExec(s: State, sched: Schedule, gens: map<nat, nat>, wroteCert: Option<nat>,
                                      wroteKey: Option<nat>, before: Origin) returns (last: map<nat, nat>)
    requires Inv(s) && Legal(s, sched) && Marked(s, gens)
    requires WorkOf(s, gens, ClientCertPem, wroteCert, before) && WorkOf(s, gens, ClientKeyPem, wroteKey, before)
    ensures Marked(Exec(s, sched), last)
    ensures WorkOf(Exec(s, sched), last, ClientCertPem, LastWriter(sched, ClientCertPem, wroteCert), before)
    ensures WorkOf(Exec(s, sched), last, ClientKeyPem, LastWriter(sched, ClientKeyPem, wroteKey), before)
    decreases |sched|
  {
    last := gens;
    if sched != [] {
      var (t, a) := sched[0];
      InvStep(s, t, a);
      MarkedStep(s, t, a, gens);
      WorkOfStep(s, t, a, gens, ClientCertPem, wroteCert, before);
      WorkOfStep(s, t, a, gens, ClientKeyPem, wroteKey, before);
      last := WorkOfExec(Apply(s, t, a), sched[1..], Next(gens, s.next, t, a),
                         if Writes(a, ClientCertPem) then Some(t) else wroteCert,
                         if Writes(a, ClientKeyPem) then Some(t) else wroteKey, before);
    }
  }

  /** Whatever memory holds, once everything is quiet the two client files belong together exactly
      when the same thread was the last to write each. */
  lemma ClientFilesMatchIff(s: State, sched: Schedule)
    requires Inv(s) && Quiet(s) && Agrees(s, ClientCertPem) && Agrees(s, ClientKeyPem)
    requires Legal(s, sched) && Quiet(Exec(s, sched))
    ensures
      var files := Exec(s, sched).files;
      && ClientCertPem in files && ClientKeyPem in files
      && (files[ClientCertPem].origin == files[ClientKeyPem].origin <==>
          LastWriter(sched, ClientCertPem, None) == LastWriter(sched, ClientKeyPem, None))
  {
    var before := s.creds.clientCer.origin;
    assert s.files[ClientKeyPem].origin == before;
    var last := WorkOfExec(s, sched, map[], None, None, before);
    var n := Exec(s, sched);
    assert forall t | t in last :: !Owes(n.threads[t], ClientCertPem) && !Owes(n.threads[t], ClientKeyPem);
  }

  /** Two overlapping reissues can leave, with everything quiet again, a certificate on disk that
      its key does not belong to. */
  lemma OverlappingReissuesMix(s: State, cer0: Blob, key0: Blob, cer1: Blob, key1: Blob) returns (sched: Schedule)
    requires Inv(s) && Quiet(s) && 0 in s.threads && 1 in s.threads
    requires cer0.origin == key0.origin == Generation(s.next) && cer1.origin == key1.origin == Generation(s.next + 1)
    ensures Legal(s, sched) && Quiet(Exec(s, sched)) && Rotations(sched) == 0 && Reissues(sched) == 2
    ensures
      var files := Exec(s, sched).files;
      && ClientCertPem in files && files[ClientCertPem] == cer1
      && ClientKeyPem in files && files[ClientKeyPem] == key0
  {
    var s1 := Apply(s, 0, SetClient(cer0, key0));
    var s2 := Apply(s1, 1, SetClient(cer1, key1));
    var s3 := Apply(s2, 0, WriteClientCert);
    var s4 := Apply(s3, 1, WriteClientCert);
    var s5 := Apply(s4, 1, WriteClientKey);
    sched := Before(s5, 0, WriteClientKey, []);
    sched := Before(s4, 1, WriteClientKey, sched);
    sched := Before(s3, 1, WriteClientCert, sched);
    sched := Before(s2, 0, WriteClientCert, sched);
    sched := Before(s1, 1, SetClient(cer1, key1), sched);
    sched := Before(s, 0, SetClient(cer0, key0), sched);
  }

  lemma {:induction false} Then(s: State, first: Schedule, second: Schedule)
    requires Legal(s, first) && Legal(Exec(s, first), second)
    ensures Legal(s, first + second) && Exec(s, first + second) == Exec(Exec(s, first), second)
    ensures Rotations(first + second) == Rotations(first) + Rotations(second)
    ensures Reissues(first + second) == Reissues(first) + Reissues(second)
    decreases |first|
  {
    if first == [] {
      assert first + second == second;
    } else {
      Then(Apply(s, first[0].0, first[0].1), first[1..], second);
      assert (first + second)[1..] == first[1..] + second;
    }
  }

  /** What a whole rotation makes of a state in which nobody has the lock. */
  function Rotated(s: State, minted: Creds): State {
    s.(creds := minted, next := s.next + 1, files := Written(s.files, minted, ALL))
  }

  lemma RotationBefore(s: State, t: nat, minted: Creds, rest: Schedule) returns (sched: Schedule)
    requires Enabled(s, t, BeginRotate(minted)) && Legal(Rotated(s, minted), rest)
    ensures Legal(s, sched) && Exec(s, sched) == Exec(Rotated(s, minted), rest)
    ensures Rotations(sched) == Rotations(rest) + 1 && Reissues(sched) == Reissues(rest)
  {
    var s1 := Apply(s, t, BeginRotate(minted));
    assert Finished(s1, t) == Rotated(s, minted) by {
      assert s.threads[t := Idle] == s.threads;
    }
    sched := RotationFinishes(s1, t);
    Then(s1, sched, rest);
    sched := Before(s, t, BeginRotate(minted), sched + rest);
  }

  /** A rotation that nobody overlaps does what Rotate does, */
  lemma RotationAlone(s: State, t: nat, minted: Creds) returns (sched: Schedule)
    requires Enabled(s, t, BeginRotate(minted))
    ensures Legal(s, sched) && Rotations(sched) == 1 && Reissues(sched) == 0
    ensures
      var n := Exec(s, sched);
      && n.creds == minted && n.lock.None? && n.threads == s.threads && n.next == s.next + 1
      && (forall f: FileName :: f in n.files)
      && n.files[CertPem] == minted.serverCer && n.files[KeyPem] == minted.serverKey
      && n.files[ClientCertPem] == minted.clientCer && n.files[ClientKeyPem] == minted.clientKey
      && n.files[TokenTxt] == minted.token && n.files[AdminTokenTxt] == minted.adminTok
  {
    sched := RotationBefore(s, t, minted, []);
    forall f: FileName ensures f in ALL {
      AllNames(f);
    }
  }

  /** and such a reissue what ReissueClientCert does. */
  lemma ReissueAlone(s: State, t: nat, cer: Blob, key: Blob) returns (sched: Schedule)
    requires Enabled(s, t, SetClient(cer, key))
    ensures Legal(s, sched) && Rotations(sched) == 0 && Reissues(sched) == 1
    ensures Exec(s, sched) ==
              s.(creds := s.creds.(clientCer := cer, clientKey := key), next := s.next + 1,
                 files := s.files[ClientCertPem := cer][ClientKeyPem := key])
  {
    var s1 := Apply(s, t, SetClient(cer, key));
    var s2 := Apply(s1, t, WriteClientCert);
    assert Apply(s2, t, WriteClientKey).threads == s.threads;
    sched := Before(s2, t, WriteClientKey, []);
    sched := Before(s1, t, WriteClientCert, sched);
    sched := Before(s, t, SetClient(cer, key), sched);
  }

  /** A whole rotation in the middle of a reissue leaves its certificate with the reissue's key. */
  lemma RotationInReissueMixes(s: State, cer: Blob, key: Blob, minted: Creds) returns (sched: Schedule)
    requires Inv(s) && Quiet(s) && 0 in s.threads && 1 in s.threads
    requires cer.origin == key.origin == Generation(s.next)
    requires forall f: FileName :: minted.Get(f).origin == Generation(s.next + 1)
    ensures Legal(s, sched) && Quiet(Exec(s, sched)) && Rotations(sched) == 1 && Reissues(sched) == 1
    ensures
      var files := Exec(s, sched).files;
      && ClientCertPem in files && files[ClientCertPem] == minted.clientCer
      && ClientKeyPem in files && files[ClientKeyPem] == key
  {
    var s1 := Apply(s, 0, SetClient(cer, key));
    var s2 := Apply(s1, 0, WriteClientCert);
    var s3 := Rotated(s2, minted);
    AllNames(ClientCertPem);
    assert s3.files[ClientCertPem] == minted.Get(ClientCertPem);
    sched := Before(s3, 0, WriteClientKey, []);
    sched := RotationBefore(s2, 1, minted, sched);
    sched := Before(s1, 0, WriteClientCert, sched);
    sched := Before(s, 0, SetClient(cer, key), sched);
  }

  /** Rotations alone never overlap. */
  lemma {:induction false} RotationsAreSolitary(s: State, sched: Schedule)
    requires Inv(s) && Legal(s, sched) && Reissues(sched) == 0
    requires forall t | t in s.threads :: s.threads[t].Idle? || s.threads[t].Rotating?
    ensures AlwaysSolitary(s, sched)
    decreases |sched|
  {
    if sched != [] {
      InvStep(s, sched[0].0, sched[0].1);
      RotationsAreSolitary(Apply(s, sched[0].0, sched[0].1), sched[1..]);
    }
  }

  /** Neither does one operation with itself. */
  lemma {:induction false} OneIsSolitary(s: State, sched: Schedule)
    requires Legal(s, sched) && Solitary(s)
    requires Rotations(sched) + Reissues(sched) <= if forall t | t in s.threads :: s.threads[t].Idle? then 1 else 0
    ensures AlwaysSolitary(s, sched)
    decreases |sched|
  {
    if sched != [] {
      var (t, a) := sched[0];
      var n := Apply(s, t, a);
      assert forall u | u in s.threads && u != t :: n.threads[u] == s.threads[u];
      assert !Sets(a) ==> !s.threads[t].Idle?;
      OneIsSolitary(n, sched[1..]);
    }
  }

  /** A way to interleave at most that many rotations and reissues after which, with everything quiet
      again, the client certificate on disk does not belong to its key. */
  ghost predicate CanMix(s: State, rotations: nat, reissues: nat) {
    exists sched: Schedule ::
      && Legal(s, sched) && Rotations(sched) <= rotations && Reissues(sched) <= reissues
      && Quiet(Exec(s, sched)) && !Paired(Exec(s, sched).files, ClientCertPem, ClientKeyPem)
  }

  predicate Paired(files: Files, a: FileName, b: FileName) {
    a in files && b in files && files[a].origin == files[b].origin
  }

  /** Exactly when that can happen: one of two operations at least is a reissue. */
  lemma CanMixIff(s: State, rotations: nat, reissues: nat)
    requires Inv(s) && Quiet(s) && Agrees(s, ClientCertPem) && Agrees(s, ClientKeyPem) && {0, 1} <= s.threads.Keys
    ensures CanMix(s, rotations, reissues) <==> reissues >= 1 && rotations + reissues >= 2
  {
    var a, b := Blob("", Generation(s.next)), Blob("", Generation(s.next + 1));
    if reissues >= 2 {
      var sched := OverlappingReissuesMix(s, a, a, b, b);
    } else if reissues >= 1 && rotations >= 1 {
      var sched := RotationInReissueMixes(s, a, a, Creds(b, b, b, b, b, b));
    } else {
      forall sched: Schedule |
        Legal(s, sched) && Rotations(sched) <= rotations && Reissues(sched) <= reissues && Quiet(Exec(s, sched))
        ensures Paired(Exec(s, sched).files, ClientCertPem, ClientKeyPem)
      {
        if reissues == 0 {
          RotationsAreSolitary(s, sched);
        } else {
          OneIsSolitary(s, sched);
        }
        SolitaryLeavesPair(s, sched);
      }
    }
  }

  lemma SolitaryLeavesPair(s: State, sched: Schedule)
    requires Inv(s) && Quiet(s) && Agrees(s, ClientCertPem) && Agrees(s, ClientKeyPem)
    requires Legal(s, sched) && AlwaysSolitary(s, sched) && Quiet(Exec(s, sched))
    ensures Paired(Exec(s, sched).files, ClientCertPem, ClientKeyPem)
  {
    ClientFilesAgree(s, sched);
    PairsStayTogether(s, sched);
    var n := Exec(s, sched);
    assert n.files[ClientCertPem] == n.creds.clientCer && n.files[ClientKeyPem] == n.creds.clientKey;
  }

  function WriterAfter(gens: map<nat, nat>, t: nat, a: Action, f: FileName, writer: Option<nat>): Option<nat> {
    if Writes(a, f) && t in gens then Some(gens[t]) else writer
  }

  function OriginOf(writer: Option<nat>, before: Origin): Origin {
    if writer.Some? then Generation(writer.value) else before
  }

  /** The rotation or reissue, numbered from `next` in the order they begin, that last wrote a file;
      `gens` has the latest of each thread. */
  function LastOp(sched: Schedule, f: FileName, gens: map<nat, nat>, next: nat, before: Option<nat>): Option<nat>
    decreases |sched|
  {
    if sched == [] then before
    else
      LastOp(sched[1..], f, Next(gens, next, sched[0].0, sched[0].1), if Sets(sched[0].1) then next + 1 else next,
             WriterAfter(gens, sched[0].0, sched[0].1, f, before))
  }

  lemma FileOriginStep(s: State, t: nat, a: Action, f: FileName, gens: map<nat, nat>, writer: Option<nat>, before: Origin)
    requires Enabled(s, t, a) && Marked(s, gens)
    requires f in s.files && s.files[f].origin == OriginOf(writer, before)
    ensures
      var n := Apply(s, t, a);
      && n.next == (if Sets(a) then s.next + 1 else s.next)
      && f in n.files && n.files[f].origin == OriginOf(WriterAfter(gens, t, a, f, writer), before)
  {
  }

  /** The file is the work of `writer`, or as it was `before`. */
  ghost predicate Sourced(s: State, f: FileName, gens: map<nat, nat>, writer: Option<nat>, before: Origin) {
    Inv(s) && Marked(s, gens) && f in s.files && s.files[f].origin == OriginOf(writer, before)
  }

  lemma SourcedStep(s: State, t: nat, a: Action, f: FileName, gens: map<nat, nat>, writer: Option<nat>, before: Origin)
    requires Enabled(s, t, a) && Sourced(s, f, gens, writer, before)
    ensures Sourced(Apply(s, t, a), f, Next(gens, s.next, t, a), WriterAfter(gens, t, a, f, writer), before)
    ensures Apply(s, t, a).next == if Sets(a) then s.next + 1 else s.next
  {
    InvStep(s, t, a);
    MarkedStep(s, t, a, gens);
    FileOriginStep(s, t, a, f, gens, writer, before);
  }

  /** Every file, at any moment, is the work of that operation. */
  lemma {:induction false} FileOrigin(s: State, sched: Schedule, f: FileName, gens: map<nat, nat>,
                                      writer: Option<nat>, before: Origin)
    requires Sourced(s, f, gens, writer, before) && Legal(s, sched)
    ensures
      var files := Exec(s, sched).files;
      f in files && files[f].origin == OriginOf(LastOp(sched, f, gens, s.next, writer), before)
    decreases |sched|
  {
    if sched != [] {
      var t, a := sched[0].0, sched[0].1;
      SourcedStep(s, t, a, f, gens, writer, before);
      FileOrigin(Apply(s, t, a), sched[1..], f, Next(gens, s.next, t, a), WriterAfter(gens, t, a, f, writer), before);
    }
  }

  lemma {:induction false} LastOpIsLater(sched: Schedule, f: FileName, gens: map<nat, nat>, next: nat,
                                         before: Option<nat>, base: nat)
    requires base <= next && (before.Some? ==> base <= before.value) && forall t | t in gens :: base <= gens[t]
    ensures var last := LastOp(sched, f, gens, next, before); last.Some? ==> base <= last.value
    decreases |sched|
  {
    if sched != [] {
      var (t, a) := sched[0];
      LastOpIsLater(sched[1..], f, Next(gens, next, t, a), if Sets(a) then next + 1 else next,
                    WriterAfter(gens, t, a, f, before), base);
    }
  }

  lemma {:induction false} LegalPrefix(s: State, sched: Schedule, i: nat)
    requires Legal(s, sched) && i <= |sched|
    ensures Legal(s, sched[..i])
    decreases |sched|
  {
    if i > 0 {
      LegalPrefix(Apply(s, sched[0].0, sched[0].1), sched[1..], i - 1);
      assert sched[..i][1..] == sched[1..][..i - 1];
    }
  }

  /** Another store opened over the same directory has a lock of its own, so it reads each file at
      some moment of what the first one is doing. Two files it reads after `i` and `j` steps belong
      together exactly when the same operation had last written each by then, or none. */
  lemma OpeningPairedIff(s: State, sched: Schedule, a: FileName, i: nat, b: FileName, j: nat)
    requires Inv(s) && Quiet(s) && Paired(s.files, a, b) && Old(s.files[a], s.next)
    requires Legal(s, sched) && i <= |sched| && j <= |sched|
    ensures Legal(s, sched[..i]) && Legal(s, sched[..j])
    ensures
      var early, late := Exec(s, sched[..i]).files, Exec(s, sched[..j]).files;
      && a in early && b in late
      && (early[a].origin == late[b].origin <==>
          LastOp(sched[..i], a, map[], s.next, None) == LastOp(sched[..j], b, map[], s.next, None))
  {
    LegalPrefix(s, sched, i);
    LegalPrefix(s, sched, j);
    FileOrigin(s, sched[..i], a, map[], None, s.files[a].origin);
    FileOrigin(s, sched[..j], b, map[], None, s.files[a].origin);
    LastOpIsLater(sched[..i], a, map[], s.next, None, s.next);
    LastOpIsLater(sched[..j], b, map[], s.next, None, s.next);
  }

  /** While at most that many rotations go on, an opening can load a server certificate and a key that
      do not belong together. */
  ghost predicate CanLoadMixed(s: State, rotations: nat) {
    exists sched: Schedule, i: nat, j: nat ::
      && Legal(s, sched) && Rotations(sched) <= rotations && i <= |sched| && j <= |sched|
      && LoadsMixed(s, sched, i, j)
  }

  ghost predicate LoadsMixed(s: State, sched: Schedule, i: nat, j: nat)
    requires i <= |sched| && j <= |sched|
  {
    && Legal(s, sched[..i]) && Legal(s, sched[..j])
    && var early, late := Exec(s, sched[..i]).files, Exec(s, sched[..j]).files;
       CertPem in early && KeyPem in late && early[CertPem].origin != late[KeyPem].origin
  }

  /** It can exactly when there is a rotation. */
  lemma CanLoadMixedIff(s: State, rotations: nat)
    requires Inv(s) && Quiet(s) && 0 in s.threads
    ensures CanLoadMixed(s, rotations) <==> rotations >= 1
  {
    assert s.files[CertPem] == s.creds.serverCer && s.files[KeyPem] == s.creds.serverKey;
    if rotations >= 1 {
      var b := Blob("", Generation(s.next));
      var minted := Creds(b, b, b, b, b, b);
      var s1 := Apply(s, 0, BeginRotate(minted));
      AllNames(KeyPem);
      var sched := Before(s1, 0, WriteFile(KeyPem), []);
      sched := Before(s, 0, BeginRotate(minted), sched);
      assert sched[..0] == [] && sched[..2] == sched;
      assert LoadsMixed(s, sched, 0, 2);
    } else {
      forall sched: Schedule, i: nat, j: nat |
        Legal(s, sched) && Rotations(sched) == 0 && i <= |sched| && j <= |sched|
        ensures !LoadsMixed(s, sched, i, j)
      {
        LegalPrefix(s, sched, i);
        LegalPrefix(s, sched, j);
        ServerFilesStay(s, sched, i);
        ServerFilesStay(s, sched, j);
      }
    }
  }

  lemma {:induction false} ServerFilesStay(s: State, sched: Schedule, i: nat)
    requires Inv(s) && s.lock.None? && Legal(s, sched) && Rotations(sched) == 0 && i <= |sched| && Legal(s, sched[..i])
    ensures forall f: FileName | !ClientFile(f) :: f in Exec(s, sched[..i]).files && Exec(s, sched[..i]).files[f] == s.files[f]
    decreases i
  {
    if i > 0 {
      var n := Apply(s, sched[0].0, sched[0].1);
      InvStep(s, sched[0].0, sched[0].1);
      assert sched[..i][1..] == sched[1..][..i - 1];
      ServerFilesStay(n, sched[1..], i - 1);
    }
  }
}
