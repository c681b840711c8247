/** What interrupted writes leave in the tls directory, and what the next open makes of it
    (einkgrpc/certmanager.go). A crash in the middle of a write sequence leaves the same files as
    a write that fails there. */
module CredentialCrash {
  import opened Wrappers
  import opened Credentials

  /** One opening of the directory, rotation or reissue, perhaps cut short. */
  datatype Event = Opening(minted: Creds, order: seq<FileName>, fault: Option<WriteFault>)
                 | Rotation(minted: Creds, order: seq<FileName>, fault: Option<WriteFault>)
                 | Reissue(minted: Creds, fault: Option<WriteFault>)
  {
    function Order(): seq<FileName> {
      if Reissue? then REISSUE_ORDER else order
    }

    /** The failing write still wrote all of its file. */
    predicate WroteAll()
      requires Faulted(Order(), fault)
    {
      fault.value.torn.Some? && fault.value.torn.value >= |minted.Get(Order()[fault.value.at]).text|
    }

    /** The files written completely, and with them the one left torn. */
    function Whole(): set<FileName> {
      if !Faulted(Order(), fault) then Names(Order())
      else Names(Order()[..fault.value.at]) + if WroteAll() then {Order()[fault.value.at]} else {}
    }

    function Touched(): set<FileName> {
      if Faulted(Order(), fault) && fault.value.torn.Some? then Whole() + {Order()[fault.value.at]} else Whole()
    }

    ghost predicate Valid(generation: nat) {
      && (!Reissue? ==> OrderOf(order, ALL))
      && forall f: FileName :: minted.Get(f).origin == Generation(generation)
    }
  }

  function Effect(files: Files, e: Event): Files {
    if e.Opening? && Complete(files) then files else AfterWrites(files, e.minted, e.Order(), e.fault)
  }

  function Replay(files: Files, h: seq<Event>): Files {
    if h == [] then files else Effect(Replay(files, h[..|h| - 1]), h[|h| - 1])
  }

  /** Events are what the store's methods do; an opening uses a new store. */
  method Happen(disk: Disk, e: Event, readOrder: seq<FileName>)
    requires OrderOf(readOrder, PEM) && (!e.Reissue? ==> OrderOf(e.order, ALL))
    modifies disk
    ensures disk.files == Effect(old(disk.files), e)
  {
    var cm := new CertManager(disk);
    match e
    case Opening(minted, order, fault) =>
      var ok := cm.LoadOrInit(readOrder, Some(minted), order, fault);
    case Rotation(minted, order, fault) =>
      var ok := cm.Rotate(Some(minted), order, fault);
    case Reissue(minted, fault) =>
      var ok := cm.ReissueClientCert(Some((minted.clientCer, minted.clientKey)), fault);
      AfterReissue(old(disk.files), cm.creds, fault);
      AfterReissue(old(disk.files), minted, fault);
  }

  /** Each event generates under its own number. */
  ghost predicate Numbered(h: seq<Event>, base: nat) {
    forall k | 0 <= k < |h| :: h[k].Valid(base + k)
  }

  ghost predicate OlderThan(files: Files, n: nat) {
    forall f | f in files :: files[f].origin.Generation? ==> files[f].origin.n < n
  }

  /** Two whole files of one generation. */
  predicate Matching(files: Files, a: FileName, b: FileName) {
    a in files && b in files && files[a].origin.Generation? && files[a].origin == files[b].origin
  }

  /** Every name was there or has been reached by some event. */
  predicate Covered(files: Files, h: seq<Event>) {
    forall f: FileName :: f in files || Reached(h, f)
  }

  predicate Reached(h: seq<Event>, f: FileName) {
    exists k | 0 <= k < |h| :: f in h[k].Touched()
  }

  /** The last event that wrote to either file; an opening of a covered directory writes nothing. */
  function LastTouch(files: Files, h: seq<Event>, a: FileName, b: FileName): Option<Event> {
    if h == [] then None
    else
      var e, before := h[|h| - 1], h[..|h| - 1];
      if !(e.Opening? && Covered(files, before)) && (a in e.Touched() || b in e.Touched()) then Some(e)
      else LastTouch(files, before, a, b)
  }

  lemma AfterWritesAt(files: Files, c: Creds, order: seq<FileName>, fault: Option<WriteFault>, f: FileName)
    requires forall i, j | 0 <= i < j < |order| :: order[i] != order[j]
    ensures
      var d := AfterWrites(files, c, order, fault);
      var whole := if Faulted(order, fault) then Names(order[..fault.value.at]) else Names(order);
      if f in whole then f in d && d[f] == c.Get(f)
      else if Faulted(order, fault) && fault.value.torn.Some? && f == order[fault.value.at]
      then
        var text, n := c.Get(f).text, fault.value.torn.value;
        && f in d && d[f] == Torn(c.Get(f), n)
        && if n < |text| then d[f] == Blob(text[..n], Unknown) else d[f] == c.Get(f)
      else (f in d <==> f in files) && (f in files ==> d[f] == files[f])
  {
  }

  lemma EffectAt(files: Files, e: Event, g: nat, f: FileName)
    requires e.Valid(g) && !(e.Opening? && Complete(files))
    ensures
      var d := Effect(files, e);
      if f in e.Whole() then f in d && d[f] == e.minted.Get(f)
      else if f in e.Touched() then f in d && d[f].origin == Unknown
      else (f in d <==> f in files) && (f in files ==> d[f] == files[f])
  {
    AfterWritesAt(files, e.minted, e.Order(), e.fault, f);
  }

  lemma {:induction false} ReplayOlder(files: Files, h: seq<Event>, base: nat)
    requires Numbered(h, base) && OlderThan(files, base)
    ensures OlderThan(Replay(files, h), base + |h|)
  {
    if h != [] {
      var e, before := h[|h| - 1], h[..|h| - 1];
      ReplayOlder(files, before, base);
      forall f | f in Replay(files, h) && Replay(files, h)[f].origin.Generation?
        ensures Replay(files, h)[f].origin.n < base + |h|
      {
        if !(e.Opening? && Complete(Replay(files, before))) {
          EffectAt(Replay(files, before), e, base + |h| - 1, f);
        }
      }
    }
  }

  lemma PairStep(d: Files, e: Event, g: nat, a: FileName, b: FileName)
    requires e.Valid(g) && OlderThan(d, g) && a != b
    requires !(e.Opening? && Complete(d))
    ensures Matching(Effect(d, e), a, b) <==>
              if a in e.Touched() || b in e.Touched() then a in e.Whole() && b in e.Whole() else Matching(d, a, b)
  {
    EffectAt(d, e, g, a);
    EffectAt(d, e, g, b);
  }

  lemma ReachedBy(h: seq<Event>, f: FileName)
    requires h != []
    ensures Reached(h, f) <==> Reached(h[..|h| - 1], f) || f in h[|h| - 1].Touched()
  {
    var before := h[..|h| - 1];
    assert forall k | 0 <= k < |before| :: before[k] == h[k];
  }

  lemma {:induction false} PresentIff(files: Files, h: seq<Event>, base: nat, f: FileName)
    requires Numbered(h, base)
    ensures f in Replay(files, h) <==> f in files || Reached(h, f)
  {
    if h != [] {
      var e, d := h[|h| - 1], Replay(files, h[..|h| - 1]);
      ReachedBy(h, f);
      PresentIff(files, h[..|h| - 1], base, f);
      if e.Opening? && Complete(d) {
        assert f in d;
      } else {
        PresentStep(d, e, base + |h| - 1, f);
      }
    }
  }

  lemma PresentStep(d: Files, e: Event, g: nat, f: FileName)
    requires e.Valid(g) && !(e.Opening? && Complete(d))
    ensures f in Effect(d, e) <==> f in d || f in e.Touched()
  {
    EffectAt(d, e, g, f);
  }

  /** Whether the next opening will trust the directory can be read off the history. */
  lemma CompleteIff(files: Files, h: seq<Event>, base: nat)
    requires Numbered(h, base)
    ensures Complete(Replay(files, h)) <==> Covered(files, h)
  {
    forall f: FileName ensures f in Replay(files, h) <==> f in files || Reached(h, f) {
      PresentIff(files, h, base, f);
    }
  }

  lemma PairLast(files: Files, h: seq<Event>, base: nat, a: FileName, b: FileName)
    requires Numbered(h, base) && OlderThan(files, base) && a != b && h != []
    ensures
      var e, before := h[|h| - 1], h[..|h| - 1];
      Matching(Replay(files, h), a, b) <==>
        if !(e.Opening? && Covered(files, before)) && (a in e.Touched() || b in e.Touched())
        then a in e.Whole() && b in e.Whole()
        else Matching(Replay(files, before), a, b)
  {
    var e, before := h[|h| - 1], h[..|h| - 1];
    ReplayOlder(files, before, base);
    CompleteIff(files, before, base);
    var d := Replay(files, before);
    if !(e.Opening? && Complete(d)) {
      PairStep(d, e, base + |h| - 1, a, b);
    }
  }

  /** After any history of interrupted and completed events over any directory, two files belong to
      one generation exactly when the last event to touch either wrote both completely (or, if
      none did, when they matched to begin with). */
  lemma {:induction false} PairMatchesIff(files: Files, h: seq<Event>, base: nat, a: FileName, b: FileName)
    requires Numbered(h, base) && OlderThan(files, base) && a != b
    ensures Matching(Replay(files, h), a, b) <==>
              match LastTouch(files, h, a, b)
              case None => Matching(files, a, b)
              case Some(e) => a in e.Whole() && b in e.Whole()
  {
    if h != [] {
      PairMatchesIff(files, h[..|h| - 1], base, a, b);
      PairLast(files, h, base, a, b);
    }
  }

  /** What the next completed open uses: it believes any complete directory, mixed or torn. */
  function NextOpen(files: Files, minted: Creds): Creds {
    if Complete(files) then Loaded(files) else minted
  }

  predicate Paired(c: Creds, a: FileName, b: FileName) {
    c.Get(a).origin.Generation? && c.Get(a).origin == c.Get(b).origin
  }

  lemma LoadedKeepsPairs(d: Files, a: FileName, b: FileName)
    ensures Complete(d) ==> (Paired(Loaded(d), a, b) <==> Matching(d, a, b))
  {
    if Complete(d) {
      forall f: FileName ensures f in d && Loaded(d).Get(f).origin == d[f].origin {
        match f
        case CertPem => case KeyPem => case ClientCertPem => case ClientKeyPem => case TokenTxt => case AdminTokenTxt =>
      }
    }
  }

  /** So after any such history the values that the next open serves with belong together exactly
      when it starts afresh, or the last event to touch either file wrote both. */
  lemma NextOpenPairedIff(files: Files, h: seq<Event>, base: nat, minted: Creds, a: FileName, b: FileName)
    requires Numbered(h, base) && OlderThan(files, base) && a != b
    requires forall f: FileName :: minted.Get(f).origin == Generation(base + |h|)
    ensures Paired(NextOpen(Replay(files, h), minted), a, b) <==>
              !Covered(files, h)
              || match LastTouch(files, h, a, b)
                 case None => Matching(files, a, b)
                 case Some(e) => a in e.Whole() && b in e.Whole()
  {
    CompleteIff(files, h, base);
    PairMatchesIff(files, h, base, a, b);
    LoadedKeepsPairs(Replay(files, h), a, b);
  }

  lemma NothingIsIncomplete(files: Files)
    requires files == map[]
    ensures !Complete(files)
  {
    assert CertPem !in files;
  }

  lemma ReachesLast(e: Event, g: nat)
    requires e.Opening? && e.Valid(g) && Faulted(e.order, e.fault)
    requires e.fault.value.at == |e.order| - 1 && e.fault.value.torn.Some?
    ensures Complete(Effect(map[], e))
  {
    NothingIsIncomplete(map[]);
    forall f: FileName ensures f in Effect(map[], e) {
      TouchesAll(e, f);
      PresentStep(map[], e, g, f);
    }
  }

  lemma TouchesAll(e: Event, f: FileName)
    requires e.Opening? && OrderOf(e.order, ALL) && Faulted(e.order, e.fault)
    requires e.fault.value.at == |e.order| - 1 && e.fault.value.torn.Some?
    ensures f in e.Touched()
  {
    AllNames(f);
    assert f in e.order;
    assert e.order == e.order[..e.fault.value.at] + [e.order[e.fault.value.at]];
  }

  lemma MissesLast(e: Event, g: nat)
    requires e.Opening? && e.Valid(g) && Faulted(e.order, e.fault)
    requires e.fault.value.at < |e.order| - 1 || e.fault.value.torn.None?
    ensures !Complete(Effect(map[], e))
  {
    NothingIsIncomplete(map[]);
    EffectAt(map[], e, g, e.order[|e.order| - 1]);
  }

  /** One interrupted initialisation of an empty directory is harmless, in any write order and at
      any point, unless it reaches the very last file: otherwise the next open either finds all of
      it or starts afresh. */
  lemma OneInterruptedInit(e: Event, g: nat, minted: Creds)
    requires e.Opening? && e.Valid(g) && Faulted(e.order, e.fault)
    ensures Complete(Effect(map[], e)) <==> e.fault.value.at == |e.order| - 1 && e.fault.value.torn.Some?
    ensures !(e.fault.value.at == |e.order| - 1 && e.fault.value.torn.Some?) ==>
              NextOpen(Effect(map[], e), minted) == minted
  {
    if e.fault.value.at == |e.order| - 1 && e.fault.value.torn.Some? {
      ReachesLast(e, g);
    } else {
      MissesLast(e, g);
    }
  }

  /** One interrupted rotation of a good directory, writes being atomic: the next open believes
      it, and the server pair then matches exactly when both of its files or neither was reached;
      so does the client pair. */
  lemma InterruptedRotation(files: Files, e: Event, g: nat, minted: Creds)
    requires e.Rotation? && e.Valid(g) && OlderThan(files, g) && Complete(files)
    requires e.fault.Some? ==> e.fault.value.torn.None?
    requires Matching(files, CertPem, KeyPem) && Matching(files, ClientCertPem, ClientKeyPem)
    ensures
      var d := Effect(files, e);
      && Complete(d) && NextOpen(d, minted) == Loaded(d)
      && (Matching(d, CertPem, KeyPem) <==> (CertPem in e.Whole() <==> KeyPem in e.Whole()))
      && (Matching(d, ClientCertPem, ClientKeyPem) <==> (ClientCertPem in e.Whole() <==> ClientKeyPem in e.Whole()))
  {
  }

  /** Two interrupted initialisations of an empty directory, atomic writes and all, can leave it
      complete with a server key that does not belong to the certificate: the first got as far as
      the certificate, the second as far as everything else. */
  lemma TwoInterruptedInitsMix(first: Event, second: Event)
    requires first.Opening? && first.Valid(0) && first.order == CERT_FIRST && first.fault == Some(WriteFault(1, None))
    requires second.Opening? && second.Valid(1) && second.order == CERT_LAST && second.fault == Some(WriteFault(5, None))
    ensures Complete(Effect(Effect(map[], first), second))
    ensures !Matching(Effect(Effect(map[], first), second), CertPem, KeyPem)
  {
    NothingIsIncomplete(map[]);
    var d := Effect(map[], first);
    assert CERT_FIRST[..1] == [CertPem];
    EffectAt(map[], first, 0, CertPem);
    EffectAt(map[], first, 0, KeyPem);
    SecondCutBeforeCert(d, second);
  }

  lemma SecondCutBeforeCert(d: Files, e: Event)
    requires e.Opening? && e.Valid(1) && e.order == CERT_LAST && e.fault == Some(WriteFault(5, None))
    requires CertPem in d && d[CertPem].origin == Generation(0) && KeyPem !in d
    ensures Complete(Effect(d, e)) && !Matching(Effect(d, e), CertPem, KeyPem)
  {
    CertLastOrder();
    forall f: FileName ensures f in Effect(d, e) {
      EffectAt(d, e, 1, f);
    }
    EffectAt(d, e, 1, CertPem);
    EffectAt(d, e, 1, KeyPem);
  }

  const CERT_FIRST := [CertPem, KeyPem, ClientCertPem, ClientKeyPem, TokenTxt, AdminTokenTxt]
  const CERT_LAST := [KeyPem, ClientCertPem, ClientKeyPem, TokenTxt, AdminTokenTxt, CertPem]

  lemma CertLastOrder()
    ensures forall f: FileName :: f in Names(CERT_LAST[..5]) <==> f != CertPem
  {
    forall f: FileName ensures f in CERT_LAST[..5] <==> f != CertPem {
      match f {
        case CertPem =>
        case KeyPem => assert CERT_LAST[..5][0] == f;
        case ClientCertPem => assert CERT_LAST[..5][1] == f;
        case ClientKeyPem => assert CERT_LAST[..5][2] == f;
        case TokenTxt => assert CERT_LAST[..5][3] == f;
        case AdminTokenTxt => assert CERT_LAST[..5][4] == f;
      }
    }
  }
}
