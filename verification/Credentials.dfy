/** The credential store (einkgrpc/certmanager.go): six values in memory, six files on disk. */
module Credentials {
  import opened Wrappers
  import opened Text

  /** Where a value came from. The code never looks at it. */
  datatype Origin = Generation(n: nat) | Unknown

  /** A PEM block or a token, as memory and files hold it. */
  datatype Blob = Blob(text: string, origin: Origin)

  datatype FileName = CertPem | KeyPem | ClientCertPem | ClientKeyPem | TokenTxt | AdminTokenTxt

  const PEM: set<FileName> := {CertPem, KeyPem, ClientCertPem, ClientKeyPem}
  const ALL: set<FileName> := PEM + {TokenTxt, AdminTokenTxt}

  lemma AllNames(f: FileName)
    ensures f in ALL && (f in PEM || f == TokenTxt || f == AdminTokenTxt)
  {
  }

  /** The readable files of the tls directory. */
  type Files = map<FileName, Blob>

  datatype Creds = Creds(serverCer: Blob, serverKey: Blob, clientCer: Blob, clientKey: Blob, token: Blob, adminTok: Blob)
  {
    function Get(f: FileName): Blob {
      match f
      case CertPem => serverCer
      case KeyPem => serverKey
      case ClientCertPem => clientCer
      case ClientKeyPem => clientKey
      case TokenTxt => token
      case AdminTokenTxt => adminTok
    }

    function Set(f: FileName, b: Blob): Creds {
      match f
      case CertPem => this.(serverCer := b)
      case KeyPem => this.(serverKey := b)
      case ClientCertPem => this.(clientCer := b)
      case ClientKeyPem => this.(clientKey := b)
      case TokenTxt => this.(token := b)
      case AdminTokenTxt => this.(adminTok := b)
    }
  }

  const NOTHING := Creds(Blob("", Unknown), Blob("", Unknown), Blob("", Unknown),
                         Blob("", Unknown), Blob("", Unknown), Blob("", Unknown))

  predicate Complete(files: Files) {
    forall f: FileName :: f in files
  }

  function TrimBlob(b: Blob): Blob { Blob(TrimSpace(b.text), b.origin) }

  /** What a complete directory loads as: its files verbatim, tokens trimmed. */
  function Loaded(files: Files): Creds
    requires Complete(files)
  {
    Creds(files[CertPem], files[KeyPem], files[ClientCertPem], files[ClientKeyPem],
          TrimBlob(files[TokenTxt]), TrimBlob(files[AdminTokenTxt]))
  }

  /** The directory once the named files of `c` are written over it. */
  function Written(files: Files, c: Creds, names: set<FileName>): (r: Files)
    ensures forall f: FileName :: f in r <==> f in names || f in files
    ensures forall f: FileName :: f in r ==> r[f] == if f in names then c.Get(f) else files[f]
  {
    map f: FileName | f in files.Keys + names :: if f in names then c.Get(f) else files[f]
  }

  lemma WrittenEnds(files: Files, c: Creds, order: seq<FileName>)
    ensures Written(files, c, Names(order[..0])) == files
    ensures order[..|order|] == order
  {
  }

  lemma WrittenNext(files: Files, c: Creds, order: seq<FileName>, i: nat)
    requires i < |order|
    ensures Written(files, c, Names(order[..i]))[order[i] := c.Get(order[i])] ==
            Written(files, c, Names(order[..i + 1]))
  {
  }

  /** Go's os.WriteFile truncates first and is not atomic: the write at position `at` fails having
      changed nothing, or leaves the first `torn` characters, which may be all of them. */
  datatype WriteFault = WriteFault(at: nat, torn: Option<nat>)

  function Torn(b: Blob, n: nat): Blob {
    if n < |b.text| then Blob(b.text[..n], Unknown) else b
  }

  /** A map iteration order: every name of `names` once. */
  predicate OrderOf(order: seq<FileName>, names: set<FileName>) {
    && (forall f: FileName :: f in order <==> f in names)
    && (forall i, j | 0 <= i < j < |order| :: order[i] != order[j])
  }

  function Names(order: seq<FileName>): (s: set<FileName>)
    ensures forall f: FileName :: f in s <==> f in order
  {
    set f | f in order
  }

  /** The directory after writing in this order up to the fault, if one comes. */
  function AfterWrites(files: Files, c: Creds, order: seq<FileName>, fault: Option<WriteFault>): Files {
    if fault.None? || fault.value.at >= |order| then Written(files, c, Names(order))
    else
      var f := order[fault.value.at];
      var done := Written(files, c, Names(order[..fault.value.at]));
      if fault.value.torn.None? then done else done[f := Torn(c.Get(f), fault.value.torn.value)]
  }

  function Faulted(order: seq<FileName>, fault: Option<WriteFault>): bool {
    fault.Some? && fault.value.at < |order|
  }

  lemma SixNames(order: seq<FileName>)
    requires OrderOf(order, ALL)
    ensures |order| == 6
  {
    NoDuplicates(order, ALL);
  }

  lemma {:induction false} NoDuplicates(order: seq<FileName>, names: set<FileName>)
    requires OrderOf(order, names)
    ensures |order| == |names|
    decreases |order|
  {
    if order == [] {
      assert names == {};
    } else {
      assert forall f :: f in order[1..] <==> f in names - {order[0]};
      NoDuplicates(order[1..], names - {order[0]});
    }
  }

  /** Which value goes to which file. */
  lemma WrittenByName(files: Files, c: Creds, order: seq<FileName>)
    requires OrderOf(order, ALL)
    ensures |order| == 6
    ensures
      var r := Written(files, c, Names(order));
      && (forall f: FileName :: f in r)
      && r[CertPem] == c.serverCer && r[KeyPem] == c.serverKey
      && r[ClientCertPem] == c.clientCer && r[ClientKeyPem] == c.clientKey
      && r[TokenTxt] == c.token && r[AdminTokenTxt] == c.adminTok
  {
    SixNames(order);
    forall f: FileName ensures f in Names(order) {
      AllNames(f);
    }
  }

  const REISSUE_ORDER := [ClientCertPem, ClientKeyPem]

  lemma AfterReissue(files: Files, c: Creds, fault: Option<WriteFault>)
    ensures
      AfterWrites(files, c, REISSUE_ORDER, fault) ==
        var one := files[ClientCertPem := c.clientCer];
        if !Faulted(REISSUE_ORDER, fault) then one[ClientKeyPem := c.clientKey]
        else if fault.value.at == 0 then
          if fault.value.torn.None? then files
          else files[ClientCertPem := Torn(c.clientCer, fault.value.torn.value)]
        else
          if fault.value.torn.None? then one
          else one[ClientKeyPem := Torn(c.clientKey, fault.value.torn.value)]
  {
    assert REISSUE_ORDER[..0] == [] && REISSUE_ORDER[..1] == [ClientCertPem];
  }

  class Disk {
    var files: Files

    constructor (files: Files)
      ensures this.files == files
    {
      this.files := files;
    }
  }

  class CertManager {
    const disk: Disk
    var creds: Creds

    constructor (disk: Disk)
      ensures this.disk == disk && creds == NOTHING
    {
      this.disk := disk;
      creds := NOTHING;
    }

    /** `minted` is what the key generator yields, or None when it fails. */
    method RegenerateLocked(minted: Option<Creds>, order: seq<FileName>, fault: Option<WriteFault>) returns (ok: bool)
      requires OrderOf(order, ALL)
      modifies this, disk
      ensures minted.None? ==> !ok && creds == old(creds) && disk.files == old(disk.files)
      ensures minted.Some? ==>
                && ok == !Faulted(order, fault)
                && creds == minted.value
                && disk.files == AfterWrites(old(disk.files), minted.value, order, fault)
      ensures ok <==> minted.Some? && (fault.None? || fault.value.at >= 6)
      ensures ok ==> forall f: FileName :: f in disk.files
      ensures ok ==>
                  && disk.files[CertPem] == minted.value.serverCer && disk.files[KeyPem] == minted.value.serverKey
                  && disk.files[ClientCertPem] == minted.value.clientCer && disk.files[ClientKeyPem] == minted.value.clientKey
                  && disk.files[TokenTxt] == minted.value.token && disk.files[AdminTokenTxt] == minted.value.adminTok
    {
      if minted.None? {
        return false;
      }
      creds := minted.value;
      ok := WriteAll(order, fault);
      WrittenByName(old(disk.files), creds, order);
    }

    /** Its loop over the files, up to the first write that fails. */
    method WriteAll(order: seq<FileName>, fault: Option<WriteFault>) returns (ok: bool)
      modifies disk
      ensures ok == !Faulted(order, fault)
      ensures disk.files == AfterWrites(old(disk.files), creds, order, fault)
    {
      var i := 0;
      WrittenEnds(disk.files, creds, order);
      while i < |order|
        invariant 0 <= i <= |order|
        invariant fault.Some? ==> i <= fault.value.at
        invariant disk.files == Written(old(disk.files), creds, Names(order[..i]))
      {
        var name := order[i];
        if fault.Some? && fault.value.at == i {
          if fault.value.torn.Some? {
            disk.files := disk.files[name := Torn(creds.Get(name), fault.value.torn.value)];
          }
          return false;
        }
        disk.files := disk.files[name := creds.Get(name)];
        WrittenNext(old(disk.files), creds, order, i);
        i := i + 1;
      }
      return true;
    }

    /** Reads the four PEM files, up to the first that cannot be read. */
    method ReadPem(readOrder: seq<FileName>) returns (missing: bool)
      requires OrderOf(readOrder, PEM)
      modifies this
      ensures missing <==> exists f :: f in PEM && f !in disk.files
      ensures !missing ==> forall f | f in PEM :: f in disk.files && creds.Get(f) == disk.files[f]
    {
      var i := 0;
      while i < |readOrder|
        invariant 0 <= i <= |readOrder|
        invariant forall k | 0 <= k < i :: readOrder[k] in disk.files && creds.Get(readOrder[k]) == disk.files[readOrder[k]]
      {
        var name := readOrder[i];
        if name !in disk.files {
          assert name in PEM;
          return true;
        }
        creds := creds.Set(name, disk.files[name]);
        i := i + 1;
      }
      assert forall f | f in PEM :: f in readOrder;
      return false;
    }

    /** Loading trusts the directory exactly when all six files can be read, whatever order the
        files are read in; otherwise everything is generated anew. */
    method LoadOrInit(readOrder: seq<FileName>, minted: Option<Creds>, order: seq<FileName>, fault: Option<WriteFault>)
      returns (ok: bool)
      requires OrderOf(readOrder, PEM) && OrderOf(order, ALL)
      modifies this, disk
      ensures Complete(old(disk.files)) ==>
                ok && disk.files == old(disk.files) && creds == Loaded(disk.files)
      ensures !Complete(old(disk.files)) && minted.None? ==> !ok && disk.files == old(disk.files)
      ensures !Complete(old(disk.files)) && minted.Some? ==>
                && ok == !Faulted(order, fault)
                && creds == minted.value
                && disk.files == AfterWrites(old(disk.files), minted.value, order, fault)
      ensures (forall f: FileName :: f in old(disk.files)) ==>
                && creds.serverCer == disk.files[CertPem] && creds.serverKey == disk.files[KeyPem]
                && creds.clientCer == disk.files[ClientCertPem] && creds.clientKey == disk.files[ClientKeyPem]
                && TrimsTo(disk.files[TokenTxt].text, creds.token.text)
                && TrimsTo(disk.files[AdminTokenTxt].text, creds.adminTok.text)
      ensures ok && !(forall f: FileName :: f in old(disk.files)) ==>
                && minted.Some? && creds == minted.value && (forall f: FileName :: f in disk.files)
                  && disk.files[CertPem] == creds.serverCer && disk.files[KeyPem] == creds.serverKey
                  && disk.files[ClientCertPem] == creds.clientCer && disk.files[ClientKeyPem] == creds.clientKey
                  && disk.files[TokenTxt] == creds.token && disk.files[AdminTokenTxt] == creds.adminTok
      ensures ok <==> (forall f: FileName :: f in old(disk.files)) || (minted.Some? && (fault.None? || fault.value.at >= 6))
    {
      var missing := ReadPem(readOrder);
      if !missing {
        if TokenTxt in disk.files {
          creds := creds.(token := TrimBlob(disk.files[TokenTxt]));
        } else {
          missing := true;
        }
        if AdminTokenTxt in disk.files {
          creds := creds.(adminTok := TrimBlob(disk.files[AdminTokenTxt]));
        } else {
          missing := true;
        }
      }
      if !missing {
        forall f: FileName ensures f in disk.files {
          AllNames(f);
        }
        TrimSpaceIff(disk.files[TokenTxt].text, creds.token.text);
        TrimSpaceIff(disk.files[AdminTokenTxt].text, creds.adminTok.text);
        return true;
      }
      ok := RegenerateLocked(minted, order, fault);
    }

    /** A rotation whose writes fail has already replaced the values in memory. */
    method Rotate(minted: Option<Creds>, order: seq<FileName>, fault: Option<WriteFault>) returns (ok: bool)
      requires OrderOf(order, ALL)
      modifies this, disk
      ensures minted.None? ==> !ok && creds == old(creds) && disk.files == old(disk.files)
      ensures minted.Some? ==>
                && ok == !Faulted(order, fault)
                && creds == minted.value
                && disk.files == AfterWrites(old(disk.files), minted.value, order, fault)
      ensures ok <==> minted.Some? && (fault.None? || fault.value.at >= 6)
      ensures ok ==> forall f: FileName :: f in disk.files
      ensures ok ==>
                  && disk.files[CertPem] == minted.value.serverCer && disk.files[KeyPem] == minted.value.serverKey
                  && disk.files[ClientCertPem] == minted.value.clientCer && disk.files[ClientKeyPem] == minted.value.clientKey
                  && disk.files[TokenTxt] == minted.value.token && disk.files[AdminTokenTxt] == minted.value.adminTok
    {
      ok := RegenerateLocked(minted, order, fault);
    }

    method ReissueClientCert(minted: Option<(Blob, Blob)>, fault: Option<WriteFault>) returns (ok: bool)
      modifies this, disk
      ensures minted.None? ==> !ok && creds == old(creds) && disk.files == old(disk.files)
      ensures minted.Some? ==>
                && ok == !Faulted(REISSUE_ORDER, fault)
                && creds == Reissued(old(creds), minted.value)
                && disk.files == AfterWrites(old(disk.files), creds, REISSUE_ORDER, fault)
      ensures ok <==> minted.Some? && (fault.None? || fault.value.at >= 2)
      ensures minted.Some? ==>
                && creds.clientCer == minted.value.0 && creds.clientKey == minted.value.1
                && creds.serverCer == old(creds.serverCer) && creds.serverKey == old(creds.serverKey)
                && creds.token == old(creds.token) && creds.adminTok == old(creds.adminTok)
      ensures ok ==>
                disk.files == old(disk.files)[ClientCertPem := minted.value.0][ClientKeyPem := minted.value.1]
    {
      if minted.None? {
        return false;
      }
      creds := Reissued(creds, minted.value);
      AfterReissue(disk.files, creds, fault);
      if Faulted(REISSUE_ORDER, fault) && fault.value.at == 0 {
        if fault.value.torn.Some? {
          disk.files := disk.files[ClientCertPem := Torn(creds.clientCer, fault.value.torn.value)];
        }
        return false;
      }
      disk.files := disk.files[ClientCertPem := creds.clientCer];
      if Faulted(REISSUE_ORDER, fault) {
        if fault.value.torn.Some? {
          disk.files := disk.files[ClientKeyPem := Torn(creds.clientKey, fault.value.torn.value)];
        }
        return false;
      }
      disk.files := disk.files[ClientKeyPem := creds.clientKey];
      return true;
    }
  }

  /** Only the client pair changes. */
  function Reissued(c: Creds, pair: (Blob, Blob)): Creds {
    c.(clientCer := pair.0, clientKey := pair.1)
  }

  /** Memory and directory agree, and no token has white space around it. */
  predicate InSync(c: Creds, files: Files) {
    && Complete(files)
    && (forall f: FileName :: files[f] == c.Get(f))
    && Trimmed(c.token.text) && Trimmed(c.adminTok.text)
  }

  datatype Op = DoRotate(minted: Creds) | DoReissue(pair: (Blob, Blob))

  /** The successful operations, as the contracts above give them. */
  function ApplyOp(c: Creds, files: Files, op: Op): (Creds, Files) {
    match op
    case DoRotate(minted) => (minted, Written(files, minted, ALL))
    case DoReissue(pair) => var d := Reissued(c, pair); (d, Written(files, d, Names(REISSUE_ORDER)))
  }

  function ApplyOps(c: Creds, files: Files, ops: seq<Op>): (Creds, Files)
    decreases |ops|
  {
    if ops == [] then (c, files)
    else var (d, g) := ApplyOp(c, files, ops[0]); ApplyOps(d, g, ops[1..])
  }

  lemma {:induction false} StaysInSync(c: Creds, files: Files, ops: seq<Op>)
    requires InSync(c, files)
    requires forall op | op in ops && op.DoRotate? :: Trimmed(op.minted.token.text) && Trimmed(op.minted.adminTok.text)
    ensures var (d, g) := ApplyOps(c, files, ops); InSync(d, g)
    decreases |ops|
  {
    if ops != [] {
      var (d, g) := ApplyOp(c, files, ops[0]);
      assert ops[0] in ops;
      assert InSync(d, g);
      StaysInSync(d, g, ops[1..]);
    }
  }

  /** What memory holds of the directory whenever no operation failed half-way. */
  predicate Faithful(c: Creds, files: Files) {
    Complete(files) && Loaded(files) == c
  }

  /** Opening any directory, good or not, and then any successful rotations and reissues: opening it
      again gives back all six values. */
  lemma ReopenRoundTrip(start: Files, minted: Creds, order: seq<FileName>, ops: seq<Op>)
    requires OrderOf(order, ALL)
    requires Trimmed(minted.token.text) && Trimmed(minted.adminTok.text)
    requires forall op | op in ops && op.DoRotate? :: Trimmed(op.minted.token.text) && Trimmed(op.minted.adminTok.text)
    ensures
      var (c, files) := if Complete(start) then (Loaded(start), start)
                        else (minted, AfterWrites(start, minted, order, None));
      var (d, g) := ApplyOps(c, files, ops);
      Complete(g) && Loaded(g) == d
  {
    if Complete(start) {
      StaysFaithful(Loaded(start), start, ops);
    } else {
      WritingAllIsFaithful(start, minted);
      assert Names(order) == ALL;
      StaysFaithful(minted, AfterWrites(start, minted, order, None), ops);
    }
  }

  lemma WritingAllIsFaithful(files: Files, minted: Creds)
    requires Trimmed(minted.token.text) && Trimmed(minted.adminTok.text)
    ensures Faithful(minted, Written(files, minted, ALL))
  {
    forall f: FileName ensures f in ALL {
      AllNames(f);
    }
    TrimSpaceKeepsTrimmed(minted.token.text);
    TrimSpaceKeepsTrimmed(minted.adminTok.text);
  }

  lemma {:induction false} StaysFaithful(c: Creds, files: Files, ops: seq<Op>)
    requires Faithful(c, files)
    requires forall op | op in ops && op.DoRotate? :: Trimmed(op.minted.token.text) && Trimmed(op.minted.adminTok.text)
    ensures var (d, g) := ApplyOps(c, files, ops); Faithful(d, g)
    decreases |ops|
  {
    if ops != [] {
      assert ops[0] in ops;
      if ops[0].DoRotate? {
        WritingAllIsFaithful(files, ops[0].minted);
      }
      var (d, g) := ApplyOp(c, files, ops[0]);
      StaysFaithful(d, g, ops[1..]);
    }
  }
}
