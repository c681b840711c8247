/** Bearer authentication (einkgrpc/tokenauth.go) and the header the command line sends
    (tableaux-cli/dial.go). */
module TokenAuth {
  import opened Wrappers
  import opened Text

  datatype Denial = MissingMetadata | MissingHeader | NotBearer | InvalidToken

  const PREFIX := "Bearer "

  predicate TokenEquals(a: string, b: string) {
    a != "" && b != "" && |a| == |b| && a == b
  }

  /** The token a header carries. */
  function Extract(header: string): Option<string> {
    var got := TrimSpace(header);
    if PREFIX <= got then Some(TrimSpace(got[|PREFIX|..])) else None
  }

  /** `headers` are the authorization values of the call's metadata, of which the first counts. */
  function Check(headers: Option<seq<string>>, operator: string, admin: string): Result<(), Denial> {
    if headers.None? then Failure(MissingMetadata)
    else if headers.value == [] then Failure(MissingHeader)
    else
      var tok := Extract(headers.value[0]);
      if tok.None? then Failure(NotBearer)
      else if !TokenEquals(tok.value, operator) && !TokenEquals(tok.value, admin) then Failure(InvalidToken)
      else Success(())
  }

  lemma VisibleSurvives(s: string, i: nat)
    requires i < |s| && !IsSpace(s[i])
    ensures TrimSpace(s) != "" && Trimmed(TrimSpace(s))
  {
    var a, b := TrimSpacePads(s);
    assert TrimSpace(s) == "" ==> s == a + b;
    assert AllSpace(a + b);
  }

  /** No header yields an empty token: what passes the prefix test ends in something visible. An
      empty stored token therefore lets nobody in. */
  lemma ExtractedIsVisible(header: string)
    ensures Extract(header).Some? ==> Extract(header).value != "" && Trimmed(Extract(header).value)
  {
    var a, b := TrimSpacePads(header);
    var got := TrimSpace(header);
    if PREFIX <= got {
      assert got[6] == PREFIX[6] && !IsSpace(got[|got| - 1]);
      var rest := got[|PREFIX|..];
      assert rest[|rest| - 1] == got[|got| - 1];
      VisibleSurvives(rest, |rest| - 1);
    }
  }

  /** The header is the scheme and a token, with white space before, between and after. */
  ghost predicate Bears(header: string, tok: string) {
    && tok != "" && Trimmed(tok)
    && exists a: string, b: string, c: string ::
         AllSpace(a) && AllSpace(b) && AllSpace(c) && header == a + "Bearer " + b + tok + c
  }

  lemma BornTokenIsExtracted(header: string, tok: string)
    requires Bears(header, tok)
    ensures Extract(header) == Some(tok)
  {
    var a: string, b: string, c: string :|
      AllSpace(a) && AllSpace(b) && AllSpace(c) && header == a + "Bearer " + b + tok + c;
    var core := "Bearer " + b + tok;
    assert core[0] == 'B' && core[|core| - 1] == tok[|tok| - 1];
    assert header == a + core + c;
    TrimSpaceOfPadded(a, core, c);
    assert core[|PREFIX|..] == b + tok + "";
    TrimSpaceOfPadded(b, tok, "");
  }

  lemma EndsInSpace(s: string, a: string, b: string)
    requires s == a + b && AllSpace(b)
    ensures b != "" ==> IsSpace(s[|s| - 1])
  {
    if b != "" {
      assert s[|s| - 1] == b[|b| - 1];
    }
  }

  lemma EndsAlike(s: string, k: nat)
    requires k < |s|
    ensures s[k..] != "" && s[k..][|s[k..]| - 1] == s[|s| - 1]
  {
  }

  lemma ExtractedTokenIsBorn(header: string, tok: string)
    requires Extract(header) == Some(tok)
    ensures Bears(header, tok)
  {
    ExtractedIsVisible(header);
    var a, c := TrimSpacePads(header);
    var got := TrimSpace(header);
    var rest := got[|PREFIX|..];
    var b, d := TrimSpacePads(rest);
    EndsInSpace(rest, b + tok, d);
    EndsAlike(got, |PREFIX|);
    assert header == a + "Bearer " + b + tok + c by {
      assert got == PREFIX + (b + tok);
    }
  }

  /** What the check makes of any call: it is let in exactly when its first authorization header
      bears one of the two stored tokens. Of the others it is told whether there was no metadata, no
      such header, no bearer token in it, or the wrong one. */
  lemma CheckIff(headers: Option<seq<string>>, operator: string, admin: string)
    ensures
      var r := Check(headers, operator, admin);
      if headers.None? then r == Failure(MissingMetadata)
      else if headers.value == [] then r == Failure(MissingHeader)
      else
        var h := headers.value[0];
        && (r == Success(()) <==> Bears(h, operator) || Bears(h, admin))
        && (r == Failure(NotBearer) <==> forall tok :: !Bears(h, tok))
        && (r == Failure(InvalidToken) <==> (exists tok :: Bears(h, tok)) && !Bears(h, operator) && !Bears(h, admin))
  {
    if headers.Some? && headers.value != [] {
      var h := headers.value[0];
      forall tok ensures Bears(h, tok) <==> Extract(h) == Some(tok) {
        if Bears(h, tok) {
          BornTokenIsExtracted(h, tok);
        }
        if Extract(h) == Some(tok) {
          ExtractedTokenIsBorn(h, tok);
        }
      }
      ExtractedIsVisible(h);
    }
  }

  lemma SentTokenIsExtracted(token: string)
    ensures Extract(PREFIX + token) == if TrimSpace(token) == "" then None else Some(TrimSpace(token))
  {
    var a, b := TrimSpacePads(token);
    var core := TrimSpace(token);
    if core == "" {
      assert PREFIX + token == "" + "Bearer" + (" " + a + b);
      TrimSpaceOfPadded("", "Bearer", " " + a + b);
      assert |TrimSpace(PREFIX + token)| < |PREFIX|;
    } else {
      BearsCore(a, core, b);
      assert PREFIX + token == "" + "Bearer " + a + core + b;
      BornTokenIsExtracted(PREFIX + token, core);
    }
  }

  lemma BearsCore(a: string, core: string, b: string)
    requires AllSpace(a) && AllSpace(b) && core != "" && Trimmed(core)
    ensures Bears("" + "Bearer " + a + core + b, core)
  {
    assert AllSpace("");
  }

  /** For every string the command line may be given as its token, its header is accepted exactly
      when that string, less any white space around it, is one of the two stored tokens. */
  lemma BearerRoundTrip(token: string, others: seq<string>, operator: string, admin: string)
    ensures Check(Some([PREFIX + token] + others), operator, admin) == Success(()) <==>
              TrimSpace(token) != "" && TrimSpace(token) in {operator, admin}
    ensures token != "" && Trimmed(token) ==>
              (Check(Some([PREFIX + token] + others), operator, admin) == Success(()) <==> token in {operator, admin})
  {
    SentTokenIsExtracted(token);
    if token != "" && Trimmed(token) {
      TrimSpaceKeepsTrimmed(token);
    }
  }
}
