/**
 * Stand-ins for bcrypt and jsonwebtoken. Neither library is modelled; these
 * definitions have the properties the core relies on, proved below:
 *  - Compare(p, Hash(q)) holds exactly when p == q;
 *  - Verify(Sign(id, iat)) == Some(id), and a token names one account only.
 */
module Crypto {
  import opened Wrappers
  import opened Text

  // ---------------------------------------------------------------------------
  // bcrypt.hash(password, 8) and bcrypt.compare(password, digest)
  // ---------------------------------------------------------------------------

  /** The bcrypt identifier with the cost factor 8 that user.js passes to `hash`. */
  const DigestPrefix: string := "$2a$08$"

  /** `bcrypt.hash(p, 8)`: a digest that carries the cost-8 identifier and determines `p`. */
  function Hash(p: string): (h: string)
    ensures |h| == |DigestPrefix| + |p|
    ensures h[..|DigestPrefix|] == DigestPrefix && h[|DigestPrefix|..] == p
  {
    DigestPrefix + p
  }

  /** `bcrypt.compare(p, digest)`: only a cost-8 digest at least as long as its prefix can match. */
  predicate Compare(p: string, digest: string)
    ensures Compare(p, digest) ==> |digest| >= |DigestPrefix| && digest[..|DigestPrefix|] == DigestPrefix
  {
    digest == Hash(p)
  }

  /** A password matches a digest exactly when it is the password that was hashed. */
  lemma CompareHash(p: string, q: string)
    ensures Compare(p, Hash(q)) <==> p == q
  {
    if Compare(p, Hash(q)) {
      assert Hash(q)[|DigestPrefix|..] == q;
      assert Hash(p)[|DigestPrefix|..] == p;
    }
  }

  // ---------------------------------------------------------------------------
  // jwt.sign({ _id }, secret) and jwt.verify(token, secret)
  // ---------------------------------------------------------------------------

  /** Stands for process.env.JWT_SECRET. */
  const JwtSecret: nat := 104729

  /** The signature over a payload: it depends on the secret and on both claims. */
  function Signature(id: nat, iat: nat): string {
    NatToString(JwtSecret + 31 * id + 17 * iat)
  }

  /**
   * A token in three dot-separated parts, as a JWT has: the `_id` claim, the
   * issued-at claim (seconds of the clock at signing) and the signature.
   * Signing is deterministic: one account signed twice in one second gets the
   * same string twice.
   */
  function Sign(id: nat, iat: nat): (token: string)
    ensures Split(token, '.') == [NatToString(id), NatToString(iat), Signature(id, iat)]
  {
    var parts := [NatToString(id), NatToString(iat), Signature(id, iat)];
    forall k | 0 <= k < 3 ensures '.' !in parts[k] {
      assert AllDigits(parts[k]);
    }
    SplitJoin(parts, '.');
    Join(parts, '.')
  }

  /** The `_id` claim of a well-formed token whose signature checks, else None. */
  function Verify(token: string): (r: Option<nat>)
    ensures r.Some? ==> |Split(token, '.')| == 3 && ParseNat(Split(token, '.')[0]) == r
  {
    var parts := Split(token, '.');
    if |parts| == 3 && ParseNat(parts[0]).Some? && ParseNat(parts[1]).Some?
       && parts[2] == Signature(ParseNat(parts[0]).value, ParseNat(parts[1]).value)
    then ParseNat(parts[0])
    else None
  }

  /** A token signed for an account verifies to that account. */
  lemma VerifySign(id: nat, iat: nat)
    ensures Verify(Sign(id, iat)) == Some(id)
  {
    ParseNatToString(id);
    ParseNatToString(iat);
  }

  /** Tokens signed for two different accounts are different strings. */
  lemma SignSeparatesAccounts(a: nat, b: nat, iatA: nat, iatB: nat)
    requires a != b
    ensures Sign(a, iatA) != Sign(b, iatB)
  {
    VerifySign(a, iatA);
    VerifySign(b, iatB);
  }
}
