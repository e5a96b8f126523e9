/** The collaborators the service calls but does not implement, reduced to
    black-box values: the JWT library, bcrypt, ObjectId parsing, and the
    per-request inputs (clock, salt, generated id). */
module Platform {
  import opened Base

  /** Clock readings in whole seconds, the unit of the JWT `exp` claim. */
  type Time = nat

  const Day: nat := 86400

  /** Lifetime of a token issued by login and by refresh: 30 * 12 days. */
  const LoginTtl: nat := 30 * 12 * Day

  /** Lifetime of a token issued by register: 30 * 6 days. */
  const RegisterTtl: nat := 30 * 6 * Day

  /** The payload the service signs: `{"user": ..., "exp": ...}`. */
  datatype Claims = Claims(user: string, exp: Time)

  /** How `jwt.decode` can end: the claims' subject, or one of the exceptions
      the handlers tell apart (`ExpiredSignatureError`, `InvalidSignatureError`,
      and every other decoding error). */
  datatype DecodeResult = Ok(subject: string) | Expired | BadSignature | OtherError

  /** The JWT library bound to the process-wide secret key. */
  datatype TokenCodec = TokenCodec(
    encode: Claims -> string,
    decode: (string, Time) -> DecodeResult)

  /** Stored password hashes and bcrypt salts are opaque. */
  type Hash = string
  type Salt = nat

  /** `bcrypt.hashpw` and `bcrypt.checkpw` applied to the UTF-8 encoding of a
      password. `None` stands for the exceptions either step can raise (a
      password the encoder or the library rejects, such as one holding a NUL
      byte or a lone surrogate). */
  datatype Hasher = Hasher(
    hashpw: (string, Salt) -> Option<Hash>,
    checkpw: (string, Hash) -> Option<bool>)

  /** Note identifiers (`ObjectId`s) are opaque keys. */
  type Id = nat

  /** Process configuration: secret-bound codec, hasher, and `ObjectId(str)`,
      which yields `None` where the constructor raises `InvalidId`. */
  datatype Config = Config(
    codec: TokenCodec,
    hasher: Hasher,
    parseId: string -> Option<Id>)

  /** What one request sees of the outside world: the clock, the fresh salt
      `bcrypt.gensalt()` returns, and the id the driver generates on insert. */
  datatype Env = Env(now: Time, salt: Salt, newId: Id)

  /** The token `jwt.encode` returns for `user`, expiring `ttl` seconds after `now`. */
  function Issue(codec: TokenCodec, user: string, now: Time, ttl: nat): string
  {
    codec.encode(Claims(user, now + ttl))
  }

  /** What the JWT library promises (an assumption about it, not about this
      service): a token it signed is a non-empty string that decodes to its
      subject up to and including the expiry second and raises the expiry
      error afterwards. */
  ghost predicate CodecSound(codec: TokenCodec)
  {
    && (forall c: Claims :: codec.encode(c) != "")
    && (forall c: Claims, t: Time ::
          codec.decode(codec.encode(c), t) == if t <= c.exp then Ok(c.user) else Expired)
  }

  /** What bcrypt promises: a password it could hash matches every hash made
      from it. */
  ghost predicate HasherSound(h: Hasher)
  {
    forall p: string, s: Salt :: h.hashpw(p, s).Some? ==> h.checkpw(p, h.hashpw(p, s).value) == Some(true)
  }
}
