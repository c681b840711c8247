/** Certificate fingerprints as text (einkgrpc/certmanager.go, einkgrpc/mdns_zeroconf.go). */
module Fingerprint {
  import opened Panel

  function HexDigit(n: nat): char
    requires n < 16
  {
    "0123456789ABCDEF"[n]
  }

  function Hex(b: byte): (s: string)
    ensures |s| == 2
  {
    [HexDigit(b / 16), HexDigit(b % 16)]
  }

  /** Upper-case hex pairs joined by colons. */
  function Format(digest: seq<byte>): (s: string)
    ensures |s| == if digest == [] then 0 else 3 * |digest| - 1
  {
    if digest == [] then ""
    else if |digest| == 1 then Hex(digest[0])
    else Hex(digest[0]) + ":" + Format(digest[1..])
  }

  /** Go's strings.Join with a colon. */
  function Join(parts: seq<string>): string {
    if parts == [] then "" else if |parts| == 1 then parts[0] else parts[0] + ":" + Join(parts[1..])
  }

  lemma {:induction false} JoinHexes(parts: seq<string>, digest: seq<byte>)
    requires |parts| == |digest| && forall i | 0 <= i < |parts| :: parts[i] == Hex(digest[i])
    ensures Join(parts) == Format(digest)
  {
    if parts != [] {
      JoinHexes(parts[1..], digest[1..]);
    }
  }

  method FingerprintText(digest: seq<byte>) returns (s: string)
    ensures s == Format(digest)
  {
    var out := new string[|digest|];
    for i := 0 to |digest|
      invariant forall j | 0 <= j < i :: out[j] == Hex(digest[j])
    {
      out[i] := Hex(digest[i]);
    }
    JoinHexes(out[..], digest);
    s := Join(out[..]);
  }

  /** Character by character: two upper-case hexadecimal digits to a byte, a colon in between. */
  lemma {:induction false} FormatAt(digest: seq<byte>, i: nat)
    requires i < |digest|
    ensures
      var s := Format(digest);
      && s[3 * i] == "0123456789ABCDEF"[digest[i] / 16] && s[3 * i + 1] == "0123456789ABCDEF"[digest[i] % 16]
      && (i + 1 < |digest| ==> s[3 * i + 2] == ':')
  {
    if i > 0 {
      FormatAt(digest[1..], i - 1);
      assert Format(digest)[3..] == Format(digest[1..]);
    }
  }

  function Truncate(fp: string): string {
    if |fp| <= 47 then fp else fp[..47]
  }

  lemma HexInjective(a: byte, b: byte)
    requires Hex(a) == Hex(b)
    ensures a == b
  {
    assert Hex(a)[0] == Hex(b)[0] && Hex(a)[1] == Hex(b)[1];
    assert a / 16 == b / 16 && a % 16 == b % 16;
  }

  /** Different digests never print alike. */
  lemma {:induction false} FormatInjective(a: seq<byte>, b: seq<byte>)
    requires Format(a) == Format(b)
    ensures a == b
  {
    assert |a| == |b|;
    if a != [] {
      var s, t := Format(a), Format(b);
      assert Hex(a[0]) == s[..2] && Hex(b[0]) == t[..2];
      HexInjective(a[0], b[0]);
      if |a| > 1 {
        assert s[3..] == Format(a[1..]) && t[3..] == Format(b[1..]);
        FormatInjective(a[1..], b[1..]);
      }
      assert a == [a[0]] + a[1..] && b == [b[0]] + b[1..];
    }
  }

  lemma {:induction false} FormatPrefix(d: seq<byte>, k: nat)
    requires 1 <= k <= |d|
    ensures Format(d)[..3 * k - 1] == Format(d[..k])
  {
    if k == 1 {
      assert d[..1] == [d[0]];
      assert Format(d)[..2] == Hex(d[0]);
    } else {
      FormatPrefix(d[1..], k - 1);
      assert d[..k][1..] == d[1..][..k - 1];
      assert Format(d)[3..] == Format(d[1..]);
      assert Format(d)[..3 * k - 1] == Hex(d[0]) + ":" + Format(d[1..])[..3 * k - 4];
    }
  }

  lemma CutIsPrefix(d: seq<byte>, k: nat)
    requires k >= 1
    ensures
      var s := Format(d);
      (if |s| <= 3 * k - 1 then s else s[..3 * k - 1]) == Format(d[..if |d| < k then |d| else k])
  {
    if |d| <= k {
      assert d[..|d|] == d;
    } else {
      FormatPrefix(d, k);
    }
  }

  /** The advertised short form is the full text of the first 16 bytes, for digests of any length. */
  lemma {:induction false} TruncateIsPrefix(d: seq<byte>)
    ensures Truncate(Format(d)) == Format(d[..if |d| < 16 then |d| else 16])
  {
    CutIsPrefix(d, 16);
  }
}
