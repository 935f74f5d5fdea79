/** The two string helpers of the sanitisation library that are not HTML sanitisers. */
module Sanitize {
  import opened Wrappers
  import opened Text

  // ---------------------------------------------------------------------------
  // sanitizeFileName: replace(/[^a-zA-Z0-9.-]/g, "_") then toLowerCase()
  // ---------------------------------------------------------------------------

  /** The character class `[a-zA-Z0-9.-]` that the replacement keeps. */
  predicate KeptByPattern(c: char) {
    IsAsciiLower(c) || IsAsciiUpper(c) || IsAsciiDigit(c) || c == '.' || c == '-'
  }

  /** The characters a sanitised file name may contain: `[a-z0-9._-]`. */
  predicate SafeFileNameChar(c: char) {
    IsAsciiLower(c) || IsAsciiDigit(c) || c == '.' || c == '_' || c == '-'
  }

  /** The first pass: every character outside the pattern becomes `_`. */
  function ReplaceDisallowed(s: string): (r: string)
    ensures |r| == |s|
    ensures forall i :: 0 <= i < |s| ==> r[i] == if KeptByPattern(s[i]) then s[i] else '_'
    decreases |s|
  {
    if s == [] then []
    else [if KeptByPattern(s[0]) then s[0] else '_'] + ReplaceDisallowed(s[1..])
  }

  /** The effect on one character, stated independently of the two passes. */
  function SanitizedChar(c: char): char {
    if IsAsciiUpper(c) then LowerChar(c)
    else if SafeFileNameChar(c) && c != '_' then c
    else '_'
  }

  /**
   * `sanitizeFileName`: the same length, and at every position the lower-cased
   * letter, the kept digit, `.` or `-`, or else `_`; so only `[a-z0-9._-]` remains.
   */
  function SanitizeFileName(fileName: string): (r: string)
    ensures |r| == |fileName|
    ensures forall i :: 0 <= i < |fileName| ==> r[i] == SanitizedChar(fileName[i])
    ensures forall c :: c in r ==> SafeFileNameChar(c)
  {
    ToLowerAscii(ReplaceDisallowed(fileName))
  }

  /** Sanitising an already sanitised name changes nothing. */
  lemma SanitizeFileNameIdempotent(fileName: string)
    ensures SanitizeFileName(SanitizeFileName(fileName)) == SanitizeFileName(fileName)
  {
    var once := SanitizeFileName(fileName);
    forall i | 0 <= i < |once|
      ensures SanitizeFileName(once)[i] == once[i]
    {
      assert SafeFileNameChar(once[i]);
    }
  }

  // ---------------------------------------------------------------------------
  // validateKaistEmail: email.endsWith(ALLOWED_EMAIL_DOMAIN || "@kaist.ac.kr")
  // ---------------------------------------------------------------------------

  const DefaultEmailDomain: string := "@kaist.ac.kr"

  /** The allowed domain: the environment setting unless it is unset or empty. */
  function AllowedDomain(env: Option<string>): (d: string)
    ensures d != ""
    ensures env.Some? && env.value != "" ==> d == env.value
    ensures env.None? || env.value == "" ==> d == DefaultEmailDomain
  {
    if env.Some? && env.value != "" then env.value else DefaultEmailDomain
  }

  /** `validateKaistEmail`: accepted exactly when the address is something followed by the allowed domain. */
  function ValidateKaistEmail(email: string, env: Option<string>): (ok: bool)
    ensures ok <==> exists p: string :: email == p + AllowedDomain(env)
  {
    EndsWithIff(email, AllowedDomain(env));
    EndsWith(email, AllowedDomain(env))
  }

  /** The bare domain is itself accepted, and so is anything in front of an accepted address. */
  lemma ValidateKaistEmailPrefix(prefix: string, email: string, env: Option<string>)
    ensures ValidateKaistEmail(AllowedDomain(env), env)
    ensures ValidateKaistEmail(email, env) ==> ValidateKaistEmail(prefix + email, env)
  {
    var d := AllowedDomain(env);
    assert d == [] + d;
    if ValidateKaistEmail(email, env) {
      var p: string :| email == p + d;
      assert prefix + email == (prefix + p) + d;
    }
  }

  /** With the default domain, an address on another domain is refused. */
  lemma DefaultDomainExamples()
    ensures ValidateKaistEmail("kim@kaist.ac.kr", None)
    ensures !ValidateKaistEmail("kim@gmail.com", None)
    ensures !ValidateKaistEmail("kaist.ac.kr", None)
  {
    assert "kim@kaist.ac.kr"[3..] == DefaultEmailDomain;
  }
}
