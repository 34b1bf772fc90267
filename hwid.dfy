/** Hardware-ID binding, as the three account servers implement it: the
    client's HWID is stored as the first 32 characters of its hex SHA-256
    digest, bound on the first login that supplies one, and compared on every
    later login and verify. */
module Hwid {
  import opened Common

  predicate IsHexDigit(c: char) { '0' <= c <= '9' || 'a' <= c <= 'f' }

  predicate IsLowerHex(s: string) {
    forall i :: 0 <= i < |s| ==> IsHexDigit(s[i])
  }

  /** What `crypto.createHash('sha256').update(x).digest('hex')` returns:
      64 lower-case hex digits. The digest itself is a parameter of the model. */
  type Sha256Hex = s: string | |s| == 64 && IsLowerHex(s)
    witness ZeroDigest()

  /** The all-zero digest, a value of the digest type. */
  function ZeroDigest(): (s: string)
    ensures |s| == 64 && IsLowerHex(s)
  {
    seq(64, i => '0')
  }

  /** The shape of a stored, bound HWID. */
  predicate IsHwidHash(s: string) {
    |s| == 32 && IsLowerHex(s)
  }

  /** hashHwid: the first 32 characters of the hex SHA-256 digest of the HWID. */
  function HashHwid(sha: string -> Sha256Hex, hwid: string): (r: string)
    ensures IsHwidHash(r)
    ensures r <= sha(hwid)
  {
    sha(hwid)[..32]
  }

  /** JavaScript truthiness of the stored `hwid` column: set and non-empty. */
  predicate Bound(stored: Option<string>) {
    stored.Some? && stored.value != ""
  }

  /** The outcome of the HWID step of a login whose password was right. */
  datatype HwidStep = Reject | BindTo(hash: string) | Leave

  /** `if (hwid) { h = hashHwid(hwid); if (user.hwid && user.hwid !== h) 403;
      if (!user.hwid) bind h }`: a supplied HWID is rejected when a different
      one is bound, bound when none is, and accepted otherwise; no HWID
      leaves the binding alone. */
  function LoginHwidStep(sha: string -> Sha256Hex, stored: Option<string>, supplied: string): (r: HwidStep)
    ensures r == Reject <==> supplied != "" && Bound(stored) && stored.value != HashHwid(sha, supplied)
    ensures r.BindTo? <==> supplied != "" && !Bound(stored)
    ensures r.BindTo? ==> r.hash == HashHwid(sha, supplied)
  {
    if supplied == "" then Leave
    else
      var h := HashHwid(sha, supplied);
      if Bound(stored) && stored.value != h then Reject
      else if !Bound(stored) then BindTo(h)
      else Leave
  }

  /** The stored binding after a login step that was not rejected. */
  function AfterStep(stored: Option<string>, step: HwidStep): (r: Option<string>)
    ensures Bound(stored) ==> r == stored
    ensures r != stored ==> step.BindTo? && r == Some(step.hash)
  {
    if step.BindTo? && !Bound(stored) then Some(step.hash) else stored
  }

  /** The verify handlers' HWID test: reject only when an HWID is supplied,
      one is bound, and they differ. An unbound account accepts any HWID. */
  predicate VerifyRejects(sha: string -> Sha256Hex, stored: Option<string>, supplied: string) {
    supplied != "" && Bound(stored) && stored.value != HashHwid(sha, supplied)
  }

  /** Login and verify agree on which HWIDs they refuse. */
  lemma LoginAndVerifyAgree(sha: string -> Sha256Hex, stored: Option<string>, supplied: string)
    ensures LoginHwidStep(sha, stored, supplied) == Reject <==> VerifyRejects(sha, stored, supplied)
  {
  }

  /** Binding is one-shot: after the first HWID is bound, a login with a
      second HWID is refused exactly when its hash differs, and never
      rebinds. */
  lemma BindingIsOneShot(sha: string -> Sha256Hex, first: string, second: string)
    requires first != ""
    ensures var bound := AfterStep(None, LoginHwidStep(sha, None, first));
      && bound == Some(HashHwid(sha, first))
      && (LoginHwidStep(sha, bound, second) == Reject <==>
            second != "" && HashHwid(sha, second) != HashHwid(sha, first))
      && AfterStep(bound, LoginHwidStep(sha, bound, second)) == bound
  {
  }
}
