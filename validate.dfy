/** Format checks for short codes and target URLs (backend/src/utils/validate.js). */
module Validate {
  import opened Wrappers

  /** The character class `[A-Za-z0-9]`. */
  predicate IsAlnum(c: char)
  {
    'A' <= c <= 'Z' || 'a' <= c <= 'z' || '0' <= c <= '9'
  }

  /** An anchored match of `^[A-Za-z0-9]{lo,hi}$`, consuming one character per step:
      each step needs a class character and a repetition left to spend, and the end of
      the input is accepted once the minimum has been reached. */
  predicate RepeatMatch(s: string, lo: nat, hi: nat)
    decreases |s|
  {
    if s == [] then lo == 0
    else hi > 0 && IsAlnum(s[0]) && RepeatMatch(s[1..], if lo == 0 then 0 else lo - 1, hi - 1)
  }

  /** The bounded repetition accepts exactly the strings of class characters whose length is in range. */
  lemma {:induction false} RepeatMatchIff(s: string, lo: nat, hi: nat)
    ensures RepeatMatch(s, lo, hi) <==> lo <= |s| <= hi && forall i :: 0 <= i < |s| ==> IsAlnum(s[i])
    decreases |s|
  {
    if s != [] && hi > 0 {
      RepeatMatchIff(s[1..], if lo == 0 then 0 else lo - 1, hi - 1);
      assert forall i :: 1 <= i < |s| ==> s[i] == s[1..][i - 1];
    }
  }

  const MIN_CODE_LENGTH: nat := 6
  const MAX_CODE_LENGTH: nat := 8

  /** `isValidCode(code)`: `CODE_REGEX.test(code)` with `CODE_REGEX = /^[A-Za-z0-9]{6,8}$/`. */
  function IsValidCode(code: string): (ok: bool)
    ensures ok <==> MIN_CODE_LENGTH <= |code| <= MAX_CODE_LENGTH && forall i :: 0 <= i < |code| ==> IsAlnum(code[i])
  {
    RepeatMatchIff(code, MIN_CODE_LENGTH, MAX_CODE_LENGTH);
    RepeatMatch(code, MIN_CODE_LENGTH, MAX_CODE_LENGTH)
  }

  /** Lengths 5 and 9 are out of range; `-` and `_` are outside the class. */
  lemma RejectedCodes(s: string)
    ensures |s| == 5 || |s| == 9 ==> !IsValidCode(s)
    ensures '-' in s || '_' in s ==> !IsValidCode(s)
    ensures IsValidCode("Ab3dE9") && IsValidCode("docs1234") && !IsValidCode("ab") && !IsValidCode("docs-12")
  {
    assert "docs-12"[4] == '-';
  }

  /** `new URL(url)`: the URL Standard's basic URL parser, abstracted to the scheme it
      finds, or `None` where the constructor throws. */
  type UrlParser = string -> Option<string>

  /** The `protocol` getter of a parsed URL: its scheme followed by `:`. */
  function Protocol(scheme: string): string
  {
    scheme + ":"
  }

  /** `isValidUrl(url)`: a parse failure is caught and yields false; otherwise the protocol
      must be exactly `http:` or `https:`. */
  predicate IsValidUrl(parse: UrlParser, url: string)
    ensures IsValidUrl(parse, url) ==> parse(url).Some?
  {
    match parse(url)
    case None => false
    case Some(scheme) => Protocol(scheme) == "http:" || Protocol(scheme) == "https:"
  }

  /** A URL is accepted exactly when it parses with scheme `http` or `https`. */
  lemma IsValidUrlIff(parse: UrlParser, url: string)
    ensures IsValidUrl(parse, url) <==> parse(url) == Some("http") || parse(url) == Some("https")
  {
    match parse(url)
    case None =>
    case Some(scheme) =>
      if Protocol(scheme) == "http:" {
        assert scheme == Protocol(scheme)[..|scheme|] == "http";
      }
      if Protocol(scheme) == "https:" {
        assert scheme == Protocol(scheme)[..|scheme|] == "https";
      }
  }
}
