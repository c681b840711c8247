/** Waveform names and numbers in the driver, on the wire and on the command line
    (einklib/waveform.go, tableaux-cli/commands.go, einkgrpc/displayservice.go). */
module Waveform {
  import opened Wrappers
  import opened Text
  import opened RefreshProtocol

  const LAST := 15

  /** The driver's name for each mode; every other number is "Unknown". */
  function Name(m: int): string {
    match m
    case 0 => "Init"
    case 1 => "DirectUpdate"
    case 2 => "GC16"
    case 3 => "GCC16"
    case 4 => "Animation"
    case 5 => "Partial"
    case 6 => "Full"
    case 7 => "Auto"
    case 8 => "Reset"
    case 9 => "BlackWhite"
    case 10 => "Transparent"
    case 11 => "Regal"
    case 12 => "SpectraFullGC16"
    case 13 => "SpectraGlareReduced"
    case 14 => "SpectraGhostReduced"
    case 15 => "SpectraFullGCC16"
    case _ => "Unknown"
  }

  method EqFold(a: string, b: string) returns (r: bool)
    ensures r <==> Lower(a) == Lower(b)
    ensures r <==> |a| == |b| && forall i | 0 <= i < |a| ::
              || a[i] == b[i]
              || ('A' <= a[i] <= 'Z' && b[i] as int == a[i] as int + 32)
              || ('A' <= b[i] <= 'Z' && a[i] as int == b[i] as int + 32)
  {
    if |a| != |b| {
      return false;
    }
    for i := 0 to |a|
      invariant forall j | 0 <= j < i :: LowerChar(a[j]) == LowerChar(b[j])
    {
      var ca, cb := a[i], b[i];
      if 'A' <= ca <= 'Z' {
        ca := (ca as int + 32) as char;
      }
      if 'A' <= cb <= 'Z' {
        cb := (cb as int + 32) as char;
      }
      if ca != cb {
        assert Lower(a)[i] != Lower(b)[i];
        return false;
      }
    }
    return true;
  }

  /** `ParseWaveformMode` finds the first mode whose name folds to `s`; that it is the only one is
      the lemma NamesDiffer below. */
  method ParseWaveformMode(s: string) returns (r: Option<int>)
    ensures r.Some? ==> 0 <= r.value <= LAST && Lower(Name(r.value)) == Lower(s)
    ensures r.None? ==> forall m | 0 <= m <= LAST :: Lower(Name(m)) != Lower(s)
  {
    for m := 0 to LAST + 1
      invariant forall k | 0 <= k < m :: Lower(Name(k)) != Lower(s)
    {
      var same := EqFold(Name(m), s);
      if same {
        return Some(m);
      }
    }
    return None;
  }

  /** The names in lower case. */
  function Folded(m: int): string
    requires 0 <= m <= LAST
  {
    match m
    case 0 => "init"
    case 1 => "directupdate"
    case 2 => "gc16"
    case 3 => "gcc16"
    case 4 => "animation"
    case 5 => "partial"
    case 6 => "full"
    case 7 => "auto"
    case 8 => "reset"
    case 9 => "blackwhite"
    case 10 => "transparent"
    case 11 => "regal"
    case 12 => "spectrafullgc16"
    case 13 => "spectraglarereduced"
    case 14 => "spectraghostreduced"
    case 15 => "spectrafullgcc16"
  }

  /** The names of more than one word, with underscores between the words. */
  function Spelled(m: int): string
    requires 0 <= m <= LAST
  {
    match m
    case 1 => "direct_update"
    case 9 => "black_white"
    case 12 => "spectra_full_gc16"
    case 13 => "spectra_glare_reduced"
    case 14 => "spectra_ghost_reduced"
    case 15 => "spectra_full_gcc16"
    case _ => Folded(m)
  }

  /** The command line's switch over lower-cased names: a wire number. */
  function WireNumber(s: string): (r: Option<int>)
    ensures r.Some? ==> 1 <= r.value <= LAST + 1 && (s == Folded(r.value - 1) || s == Spelled(r.value - 1))
  {
    match s
    case "init" => Some(1)
    case "directupdate" => Some(2)
    case "direct_update" => Some(2)
    case "gc16" => Some(3)
    case "gcc16" => Some(4)
    case "animation" => Some(5)
    case "partial" => Some(6)
    case "full" => Some(7)
    case "auto" => Some(8)
    case "reset" => Some(9)
    case "blackwhite" => Some(10)
    case "black_white" => Some(10)
    case "transparent" => Some(11)
    case "regal" => Some(12)
    case "spectrafullgc16" => Some(13)
    case "spectra_full_gc16" => Some(13)
    case "spectraglarereduced" => Some(14)
    case "spectra_glare_reduced" => Some(14)
    case "spectraghostreduced" => Some(15)
    case "spectra_ghost_reduced" => Some(15)
    case "spectrafullgcc16" => Some(16)
    case "spectra_full_gcc16" => Some(16)
    case _ => None
  }

  function ParseWaveform(s: string): Option<int> {
    WireNumber(Lower(TrimSpace(s)))
  }

  lemma FoldedIsLowerSpectra(m: int)
    requires 12 <= m <= LAST
    ensures Lower(Name(m)) == Folded(m)
  {
    match m
    case 12 => assert Lower("SpectraFullGC16") == "spectrafullgc16";
    case 13 => assert Lower("SpectraGlareReduced") == "spectraglarereduced";
    case 14 => assert Lower("SpectraGhostReduced") == "spectraghostreduced";
    case 15 => assert Lower("SpectraFullGCC16") == "spectrafullgcc16";
  }

  lemma FoldedIsLower(m: int)
    requires 0 <= m <= LAST
    ensures Lower(Name(m)) == Folded(m)
  {
    match m
    case 0 => assert Lower("Init") == "init";
    case 1 => assert Lower("DirectUpdate") == "directupdate";
    case 2 => assert Lower("GC16") == "gc16";
    case 3 => assert Lower("GCC16") == "gcc16";
    case 4 => assert Lower("Animation") == "animation";
    case 5 => assert Lower("Partial") == "partial";
    case 6 => assert Lower("Full") == "full";
    case 7 => assert Lower("Auto") == "auto";
    case 8 => assert Lower("Reset") == "reset";
    case 9 => assert Lower("BlackWhite") == "blackwhite";
    case 10 => assert Lower("Transparent") == "transparent";
    case 11 => assert Lower("Regal") == "regal";
    case _ => FoldedIsLowerSpectra(m);
  }

  /** The command line knows every driver name in lower case. */
  lemma WireNumberOfName(m: int)
    requires 0 <= m <= LAST
    ensures WireNumber(Folded(m)) == Some(m + 1)
  {
    match m
    case 0 => assert WireNumber("init").Some?;
    case 1 => assert WireNumber("directupdate").Some?;
    case 2 => assert WireNumber("gc16").Some?;
    case 3 => assert WireNumber("gcc16").Some?;
    case 4 => assert WireNumber("animation").Some?;
    case 5 => assert WireNumber("partial").Some?;
    case 6 => assert WireNumber("full").Some?;
    case 7 => assert WireNumber("auto").Some?;
    case 8 => assert WireNumber("reset").Some?;
    case 9 => assert WireNumber("blackwhite").Some?;
    case 10 => assert WireNumber("transparent").Some?;
    case 11 => assert WireNumber("regal").Some?;
    case 12 => assert WireNumber("spectrafullgc16").Some?;
    case 13 => assert WireNumber("spectraglarereduced").Some?;
    case 14 => assert WireNumber("spectraghostreduced").Some?;
    case 15 => assert WireNumber("spectrafullgcc16").Some?;
  }

  /** The numbers are those of the protocol's WaveformMode (einkproto/display.proto). */
  lemma WireNumbers()
    ensures WireNumber("init") == Some(1) && WireNumber("directupdate") == WireNumber("direct_update") == Some(2)
    ensures WireNumber("gc16") == Some(3) && WireNumber("gcc16") == Some(4) && WireNumber("animation") == Some(5)
    ensures WireNumber("partial") == Some(6) && WireNumber("full") == Some(7)
  {
  }

  lemma LaterWireNumbers()
    ensures WireNumber("auto") == Some(8) && WireNumber("reset") == Some(9)
    ensures WireNumber("blackwhite") == WireNumber("black_white") == Some(10)
    ensures WireNumber("transparent") == Some(11) && WireNumber("regal") == Some(12)
  {
  }

  lemma SpectraFullNumbers()
    ensures WireNumber("spectrafullgc16") == WireNumber("spectra_full_gc16") == Some(13)
    ensures WireNumber("spectrafullgcc16") == WireNumber("spectra_full_gcc16") == Some(16)
  {
  }

  lemma SpectraReducedNumbers()
    ensures WireNumber("spectraglarereduced") == WireNumber("spectra_glare_reduced") == Some(14)
    ensures WireNumber("spectraghostreduced") == WireNumber("spectra_ghost_reduced") == Some(15)
  {
  }

  lemma WireNumberOfSpelling(m: int)
    requires 0 <= m <= LAST
    ensures WireNumber(Spelled(m)) == Some(m + 1)
  {
    match m
    case 1 => assert WireNumber("direct_update").Some?;
    case 9 => assert WireNumber("black_white").Some?;
    case 12 => assert WireNumber("spectra_full_gc16").Some?;
    case 13 => assert WireNumber("spectra_glare_reduced").Some?;
    case 14 => assert WireNumber("spectra_ghost_reduced").Some?;
    case 15 => assert WireNumber("spectra_full_gcc16").Some?;
    case _ => WireNumberOfName(m);
  }

  lemma WireNumberIff(s: string, m: int)
    ensures WireNumber(s) == Some(m + 1) <==> 0 <= m <= LAST && (s == Folded(m) || s == Spelled(m))
  {
    if 0 <= m <= LAST && s == Folded(m) {
      WireNumberOfName(m);
    } else if 0 <= m <= LAST && s == Spelled(m) {
      WireNumberOfSpelling(m);
    }
  }

  /** Exactly what the command line takes for a mode: its name in any case, or the words of its name
      in any case with underscores between them, and any white space around. */
  lemma ParseWaveformIff(s: string, core: string, m: int)
    requires TrimsTo(s, core)
    ensures ParseWaveform(s) == Some(m + 1) <==>
              0 <= m <= LAST && (Lower(core) == Lower(Name(m)) || Lower(core) == Spelled(m))
  {
    TrimSpaceIff(s, core);
    WireNumberIff(Lower(core), m);
    if 0 <= m <= LAST {
      FoldedIsLower(m);
    }
  }

  /** No two modes share a name, in any case. */
  lemma NamesDiffer(m: int, k: int)
    requires 0 <= m <= LAST && 0 <= k <= LAST && Lower(Name(m)) == Lower(Name(k))
    ensures m == k
  {
    FoldedIsLower(m);
    FoldedIsLower(k);
    WireNumberOfName(m);
    WireNumberOfName(k);
  }

  /** Names start and end with a letter or a digit. */
  lemma FoldedEnds(m: int)
    requires 0 <= m <= LAST
    ensures var n := Folded(m); n != "" && 'a' <= n[0] <= 'z' && (n[|n| - 1] == '6' || 'a' <= n[|n| - 1] <= 'z')
  {
  }

  lemma FoldingKeepsTrimmed(s: string)
    requires s != "" && 'a' <= Lower(s)[0] <= 'z'
    requires Lower(s)[|s| - 1] == '6' || 'a' <= Lower(s)[|s| - 1] <= 'z'
    ensures TrimSpace(s) == s
  {
    assert Lower(s)[0] == LowerChar(s[0]) && Lower(s)[|s| - 1] == LowerChar(s[|s| - 1]);
    TrimSpaceKeepsTrimmed(s);
  }

  /** Whatever the driver's parser takes for a mode, in any case, the command line takes too, and
      the number it sends is translated back to that same mode. */
  lemma LayersAgree(s: string, m: int)
    requires 0 <= m <= LAST && Lower(Name(m)) == Lower(s)
    ensures ParseWaveform(s) == Some(m + 1)
    ensures TranslateMode(ParseWaveform(s).value) == m
  {
    FoldedIsLower(m);
    FoldedEnds(m);
    WireNumberOfName(m);
    assert Lower(s) == Folded(m);
    FoldingKeepsTrimmed(s);
  }
}
