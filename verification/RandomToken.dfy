/** Bearer tokens are unpadded base64url text (section 5 of RFC 4648) of random bytes
    (einkgrpc/certmanager.go). */
module RandomToken {
  import opened Panel
  import opened Text

  function Sextet(n: nat): (c: char)
    requires n < 64
    ensures !IsSpace(c)
  {
    if n < 26 then ('A' as int + n) as char
    else if n < 52 then ('a' as int + n - 26) as char
    else if n < 62 then ('0' as int + n - 52) as char
    else if n == 62 then '-' else '_'
  }

  /** Three bytes become four characters. */
  function Group(a: byte, b: byte, c: byte): (s: string)
    ensures |s| == 4 && forall i | 0 <= i < 4 :: !IsSpace(s[i])
  {
    [Sextet(a / 4), Sextet(a % 4 * 16 + b / 16), Sextet(b % 16 * 4 + c / 64), Sextet(c % 64)]
  }

  function Encode(b: seq<byte>): (s: string)
    requires |b| % 3 == 0
    ensures 3 * |s| == 4 * |b|
    ensures forall i | 0 <= i < |s| :: !IsSpace(s[i])
  {
    if b == [] then "" else Group(b[0], b[1], b[2]) + Encode(b[3..])
  }

  /** Which four characters: those that the table of section 5 of RFC 4648 gives for the four
      sextets that, most significant first, are the 24 bits of the three bytes. */
  lemma GroupIsBase64url(a: byte, b: byte, c: byte) returns (n: seq<nat>)
    ensures |n| == 4 && n[0] * 0x4_0000 + n[1] * 0x1000 + n[2] * 0x40 + n[3] == a * 0x1_0000 + b * 0x100 + c
    ensures forall i | 0 <= i < 4 ::
              var x := Group(a, b, c)[i] as int;
              || (0x41 <= x <= 0x5A && n[i] == x - 0x41)
              || (0x61 <= x <= 0x7A && n[i] == x - 0x61 + 26)
              || (0x30 <= x <= 0x39 && n[i] == x - 0x30 + 52)
              || (x == 0x2D && n[i] == 62)
              || (x == 0x5F && n[i] == 63)
  {
    n := [a / 4, a % 4 * 16 + b / 16, b % 16 * 4 + c / 64, c % 64];
  }

  lemma EncodeNext(b: seq<byte>)
    requires |b| % 3 == 0 && b != []
    ensures |b| >= 3 && |b[3..]| % 3 == 0 && Encode(b) == Group(b[0], b[1], b[2]) + Encode(b[3..])
  {
  }

  lemma SliceAfter(a: string, s: string, i: nat, j: nat)
    requires i <= j <= |s|
    ensures (a + s)[|a| + i..|a| + j] == s[i..j]
  {
  }

  /** And where they are in the text. */
  lemma {:induction false} EncodeAt(b: seq<byte>, k: nat)
    requires |b| % 3 == 0 && 3 * k + 2 < |b|
    ensures 4 * k + 4 <= |Encode(b)| && Encode(b)[4 * k..4 * k + 4] == Group(b[3 * k], b[3 * k + 1], b[3 * k + 2])
  {
    EncodeNext(b);
    var first := Group(b[0], b[1], b[2]);
    if k == 0 {
      assert (first + Encode(b[3..]))[..4] == first;
    } else {
      EncodeAt(b[3..], k - 1);
      SliceAfter(first, Encode(b[3..]), 4 * (k - 1), 4 * (k - 1) + 4);
    }
  }

  function RandomTokenText(random: seq<byte>): string
    requires |random| == 24
  {
    Encode(random)
  }

  lemma SextetInjective(m: nat, n: nat)
    requires m < 64 && n < 64 && Sextet(m) == Sextet(n)
    ensures m == n
  {
  }

  lemma GroupInjective(a: byte, b: byte, c: byte, a': byte, b': byte, c': byte)
    requires Group(a, b, c) == Group(a', b', c')
    ensures a == a' && b == b' && c == c'
  {
    var s, t := Group(a, b, c), Group(a', b', c');
    assert s[0] == t[0] && s[1] == t[1] && s[2] == t[2] && s[3] == t[3];
    SextetInjective(a / 4, a' / 4);
    SextetInjective(a % 4 * 16 + b / 16, a' % 4 * 16 + b' / 16);
    SextetInjective(b % 16 * 4 + c / 64, b' % 16 * 4 + c' / 64);
    SextetInjective(c % 64, c' % 64);
  }

  lemma Regroup(a: seq<byte>)
    requires |a| >= 3
    ensures a == [a[0], a[1], a[2]] + a[3..]
  {
  }

  lemma SplitAtFour(a: string, s: string, b: string, t: string)
    requires |a| == |b| == 4 && a + s == b + t
    ensures a == b && s == t
  {
    assert a == (a + s)[..4] && b == (b + t)[..4];
    assert s == (a + s)[4..] && t == (b + t)[4..];
  }

  /** Equal encodings start with the same three bytes. */
  lemma EqualGroups(a: seq<byte>, b: seq<byte>)
    requires |a| % 3 == 0 && |b| % 3 == 0 && a != [] && b != [] && Encode(a) == Encode(b)
    ensures a[0] == b[0] && a[1] == b[1] && a[2] == b[2] && Encode(a[3..]) == Encode(b[3..])
  {
    EncodeNext(a);
    EncodeNext(b);
    SplitAtFour(Group(a[0], a[1], a[2]), Encode(a[3..]), Group(b[0], b[1], b[2]), Encode(b[3..]));
    GroupInjective(a[0], a[1], a[2], b[0], b[1], b[2]);
  }

  lemma {:induction false} EncodeInjective(a: seq<byte>, b: seq<byte>)
    requires |a| % 3 == 0 && |b| % 3 == 0 && Encode(a) == Encode(b)
    ensures a == b
  {
    assert |a| == |b|;
    if a != [] {
      EncodeNext(a);
      EncodeNext(b);
      EqualGroups(a, b);
      EncodeInjective(a[3..], b[3..]);
      Regroup(a);
      Regroup(b);
    }
  }

  /** Tokens have 32 characters, survive the trimming of a load, and differ exactly when the random
      bytes do. */
  lemma TokenText(random: seq<byte>, other: seq<byte>)
    requires |random| == 24 && |other| == 24
    ensures |RandomTokenText(random)| == 32
    ensures Trimmed(RandomTokenText(random))
    ensures RandomTokenText(random) == RandomTokenText(other) <==> random == other
  {
    if RandomTokenText(random) == RandomTokenText(other) {
      EncodeInjective(random, other);
    }
  }
}
