/** JSON Web Tokens (RFC 7519) as the application uses them through its JWT
    library: a token carries a subject (`id`) and an expiry instant (`exp`, in
    seconds) and is signed with an HMAC secret. The signature is modelled by
    the secret itself travelling in the token; no cryptographic strength is
    claimed. */
module Jwt {
  import opened Wrappers
  import opened Text
  import Codec

  datatype Token = Token(secret: string, sub: string, exp: nat)

  /** What verifying a token yields: its subject, the library's
      `TokenExpiredError`, or any other `JsonWebTokenError`. */
  datatype Verdict = Valid(sub: string) | Expired | Invalid

  /** A secret read from the environment is usable only when it is set and
      non-empty: both the token helper's guard and the library treat an empty
      string as missing. */
  predicate Configured(secret: Option<string>) {
    secret.Some? && secret.value != ""
  }

  /** `jwt.sign({id: sub}, secret, {expiresIn})` at clock `iat` (seconds). */
  function Sign(secret: string, sub: string, iat: nat, lifetime: nat): (t: Token)
    ensures t.secret == secret && t.sub == sub && t.exp - iat == lifetime
    ensures Parse(Serialize(t)) == Some(t)
  {
    var t := Token(secret, sub, iat + lifetime);
    ParseSerialize(t);
    t
  }

  /** The compact serialization of a token. */
  function Serialize(t: Token): string {
    Codec.Encode([t.sub, Decimal(t.exp), t.secret])
  }

  /** Reading a compact serialization back; `None` for malformed text. Only
      the serialization of a token reads back as that token. */
  function Parse(s: string): (r: Option<Token>)
    ensures r.Some? ==> Serialize(r.value) == s
  {
    match Codec.Decode(s)
    case Some(fields) =>
      Codec.EncodeDecode(s);
      assert |fields| == 3 ==> fields == [fields[0], fields[1], fields[2]];
      if |fields| == 3 && AllDigits(fields[1]) && fields[1] == Decimal(DecimalValue(fields[1]))
      then Some(Token(fields[2], fields[0], DecimalValue(fields[1])))
      else None
    case None => None
  }

  /** `jwt.verify(tok, secret)` at clock `now` (seconds). The library rejects a
      missing secret first, then text that is not a token, then a signature made
      with another secret; only a correctly signed token can be reported as
      expired, which happens once `now` reaches `exp`. */
  function Verify(secret: Option<string>, tok: string, now: nat): (r: Verdict)
    ensures r.Expired? || r.Valid? ==>
              Configured(secret) && Parse(tok).Some? && Parse(tok).value.secret == secret.value
    ensures r.Expired? ==> now >= Parse(tok).value.exp
    ensures r.Valid? ==> now < Parse(tok).value.exp && r.sub == Parse(tok).value.sub
  {
    if !Configured(secret) then Invalid
    else match Parse(tok)
      case None => Invalid
      case Some(t) =>
        if t.secret != secret.value then Invalid
        else if now >= t.exp then Expired
        else Valid(t.sub)
  }

  /** Serialization round-trips, and a serialized token never contains a space
      (so it survives being carried after `Bearer ` in a header). */
  lemma ParseSerialize(t: Token)
    ensures Parse(Serialize(t)) == Some(t)
    ensures ' ' !in Serialize(t) && |Serialize(t)| > 0
  {
    var fields := [t.sub, Decimal(t.exp), t.secret];
    Codec.DecodeEncode(fields);
    DecimalRoundTrip(t.exp);
  }

  /** Distinct tokens have distinct serializations. */
  lemma SerializeInjective(a: Token, b: Token)
    requires Serialize(a) == Serialize(b)
    ensures a == b
  {
    ParseSerialize(a);
    ParseSerialize(b);
  }

  /** A freshly signed token verifies under its own secret to its subject
      until its expiry instant, and is reported expired from then on. */
  lemma VerifySigned(secret: string, sub: string, iat: nat, lifetime: nat, now: nat)
    requires secret != ""
    ensures Verify(Some(secret), Serialize(Sign(secret, sub, iat, lifetime)), now)
            == if now < iat + lifetime then Valid(sub) else Expired
  {
    ParseSerialize(Sign(secret, sub, iat, lifetime));
  }

  /** Tokens never cross-validate between secrets: whatever the clock says, a
      token signed with one secret is `Invalid` under any other. */
  lemma NoCrossValidation(signer: string, verifier: string, sub: string, iat: nat, lifetime: nat, now: nat)
    requires signer != verifier
    ensures Verify(Some(verifier), Serialize(Sign(signer, sub, iat, lifetime)), now) == Invalid
  {
    ParseSerialize(Sign(signer, sub, iat, lifetime));
  }

  /** Only a token signed with the verifying secret can be accepted, and it
      yields the subject it was signed for. */
  lemma ValidOnlyIfSigned(secret: string, tok: string, now: nat, sub: string)
    requires Verify(Some(secret), tok, now) == Valid(sub)
    ensures exists exp: nat :: now < exp && tok == Serialize(Token(secret, sub, exp))
  {
    var t := Parse(tok).value;
    var fields := Codec.Decode(tok).value;
    Codec.EncodeDecode(tok);
    assert fields == [t.sub, Decimal(t.exp), t.secret];
    assert tok == Serialize(Token(secret, sub, t.exp));
  }

}
