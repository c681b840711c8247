/** The string helpers of Go's `strings` package that the repository relies on.
    A string is a sequence of code points. */
module Text {

  /** Go's `unicode.IsSpace`. */
  predicate IsSpace(c: char) {
    || '\t' <= c <= '\r'
    || c == ' '
    || c == '\U{85}' || c == '\U{A0}' || c == '\U{1680}'
    || '\U{2000}' <= c <= '\U{200A}'
    || c == '\U{2028}' || c == '\U{2029}' || c == '\U{202F}' || c == '\U{205F}' || c == '\U{3000}'
  }

  /** The White_Space property of Unicode (PropList.txt of its character database) lists 25. */
  lemma IsSpaceIff(c: char)
    ensures IsSpace(c) <==>
              c as int in {0x9, 0xA, 0xB, 0xC, 0xD, 0x20, 0x85, 0xA0, 0x1680, 0x2000, 0x2001, 0x2002, 0x2003, 0x2004,
                           0x2005, 0x2006, 0x2007, 0x2008, 0x2009, 0x200A, 0x2028, 0x2029, 0x202F, 0x205F, 0x3000}
  {
  }

  predicate AllSpace(s: string) {
    forall i | 0 <= i < |s| :: IsSpace(s[i])
  }

  /** No white space at either end. */
  predicate Trimmed(s: string) {
    s != "" ==> !IsSpace(s[0]) && !IsSpace(s[|s| - 1])
  }

  function TrimLeft(s: string): string {
    if s != "" && IsSpace(s[0]) then TrimLeft(s[1..]) else s
  }

  function TrimRight(s: string): string {
    if s != "" && IsSpace(s[|s| - 1]) then TrimRight(s[..|s| - 1]) else s
  }

  function TrimSpace(s: string): string {
    TrimRight(TrimLeft(s))
  }

  lemma {:induction false} TrimLeftSkips(a: string, s: string)
    requires AllSpace(a)
    requires s != "" ==> !IsSpace(s[0])
    ensures TrimLeft(a + s) == s
  {
    if a == "" {
      assert a + s == s;
    } else {
      assert (a + s)[1..] == a[1..] + s;
      TrimLeftSkips(a[1..], s);
    }
  }

  lemma {:induction false} TrimRightSkips(s: string, b: string)
    requires AllSpace(b)
    requires s != "" ==> !IsSpace(s[|s| - 1])
    ensures TrimRight(s + b) == s
  {
    if b == "" {
      assert s + b == s;
    } else {
      assert (s + b)[..|s + b| - 1] == s + b[..|b| - 1];
      TrimRightSkips(s, b[..|b| - 1]);
    }
  }

  /** Trimming removes exactly the white space around a trimmed core. */
  lemma TrimSpaceOfPadded(a: string, core: string, b: string)
    requires AllSpace(a) && AllSpace(b) && Trimmed(core)
    ensures TrimSpace(a + core + b) == core
  {
    if core == "" {
      assert a + core + b == (a + b) + "";
      TrimLeftSkips(a + b, "");
    } else {
      assert a + core + b == a + (core + b);
      TrimLeftSkips(a, core + b);
      TrimRightSkips(core, b);
    }
  }

  lemma {:induction false} TrimLeftPads(s: string) returns (a: string)
    ensures AllSpace(a) && s == a + TrimLeft(s)
    ensures TrimLeft(s) != "" ==> !IsSpace(TrimLeft(s)[0])
  {
    a := "";
    if s != "" && IsSpace(s[0]) {
      a := TrimLeftPads(s[1..]);
      assert s == [s[0]] + a + TrimLeft(s);
      a := [s[0]] + a;
    }
  }

  lemma {:induction false} TrimRightPads(s: string) returns (b: string)
    ensures AllSpace(b) && s == TrimRight(s) + b
    ensures TrimRight(s) != "" ==> !IsSpace(TrimRight(s)[|TrimRight(s)| - 1])
  {
    b := "";
    if s != "" && IsSpace(s[|s| - 1]) {
      b := TrimRightPads(s[..|s| - 1]);
      assert s == TrimRight(s) + (b + [s[|s| - 1]]);
      b := b + [s[|s| - 1]];
    }
  }

  /** Every string is such a padded core, so the lemma above determines `TrimSpace`. */
  lemma TrimSpacePads(s: string) returns (a: string, b: string)
    ensures AllSpace(a) && AllSpace(b) && Trimmed(TrimSpace(s))
    ensures s == a + TrimSpace(s) + b
  {
    a := TrimLeftPads(s);
    var core := TrimLeft(s);
    b := TrimRightPads(core);
    assert TrimSpace(s) != "" ==> TrimSpace(s)[0] == core[0];
  }

  /** `core` with white space around it, and none at its own ends. */
  ghost predicate TrimsTo(s: string, core: string) {
    Trimmed(core) && exists a: string, b: string :: AllSpace(a) && AllSpace(b) && s == a + core + b
  }

  lemma TrimSpaceIff(s: string, core: string)
    ensures TrimSpace(s) == core <==> TrimsTo(s, core)
  {
    if TrimSpace(s) == core {
      var a, b := TrimSpacePads(s);
      assert s == a + core + b;
    }
    if TrimsTo(s, core) {
      var a: string, b: string :| AllSpace(a) && AllSpace(b) && s == a + core + b;
      TrimSpaceOfPadded(a, core, b);
    }
  }

  lemma TrimSpaceKeepsTrimmed(s: string)
    requires Trimmed(s)
    ensures TrimSpace(s) == s
  {
    assert "" + s + "" == s;
    TrimSpaceOfPadded("", s, "");
  }

  function LowerChar(c: char): char {
    if 'A' <= c <= 'Z' then (c as int + 32) as char else c
  }

  /** ASCII lower-casing. */
  function Lower(s: string): (r: string)
    ensures |r| == |s|
    ensures forall i | 0 <= i < |s| :: r[i] == LowerChar(s[i])
  {
    seq(|s|, i requires 0 <= i < |s| => LowerChar(s[i]))
  }
}
