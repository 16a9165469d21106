/**
  Password hashing, access tokens and password-reset tokens.

  bcrypt, SHA-256 and the HS256 JSON Web Token codec are not modelled: they
  are the function-valued fields of `Primitives`, so every fact proved here
  holds for whatever functions the libraries compute. Where a fact needs a
  property of a library (a bcrypt hash verifies against its own password, a
  token decodes to the claims it was made from until it expires, SHA-256 has
  no collisions), that property is a named predicate in the lemma's `requires`.
 */
module Security {
  import opened Wrappers
  import Utf8

  /** bcrypt reads at most this many bytes of a password. */
  const PasswordByteLimit: nat := 72

  /** `access_token_expire_minutes`, in seconds. */
  const AccessTokenLifetime: int := 60 * 12 * 60

  /** `reset_token_expire_minutes`, in seconds. */
  const ResetTokenLifetime: int := 30 * 60

  /** The JWT payload: the subject (which may be absent from a token) and the expiry time. */
  datatype Claims = Claims(sub: Option<string>, exp: int)

  datatype Primitives = Primitives(
    /** bcrypt of a password under a salt; the salt is drawn at random by the library. */
    bcryptHash: (string, string) -> string,
    bcryptVerify: (string, string) -> bool,
    /** The lower-case hex SHA-256 digest of a byte string. */
    sha256Hex: seq<Utf8.Byte> -> string,
    jwtEncode: Claims -> string,
    /** The claims of a token at time `now`; `None` for a bad signature or an expired token. */
    jwtDecode: (string, int) -> Option<Claims>)

  ghost predicate BcryptSound(p: Primitives) {
    forall password, salt :: p.bcryptVerify(password, p.bcryptHash(password, salt))
  }

  /**
    A token is never empty (it is three dot-separated segments) and decodes
    to its own claims up to and including its expiry time.
   */
  ghost predicate JwtSound(p: Primitives) {
    && (forall c: Claims :: p.jwtEncode(c) != "")
    && (forall c: Claims, now: int :: now <= c.exp ==> p.jwtDecode(p.jwtEncode(c), now) == Some(c))
  }

  ghost predicate Sha256CollisionFree(p: Primitives) {
    forall a, b :: p.sha256Hex(a) == p.sha256Hex(b) ==> a == b
  }

  // ---------------------------------------------------------------------------
  // Passwords
  // ---------------------------------------------------------------------------

  /**
    The password as bcrypt sees it: encoded in UTF-8, cut to 72 bytes and
    decoded with `errors='ignore'`. That is the longest prefix of the password
    whose encoding fits in 72 bytes; a character split by the cut is dropped.
   */
  function TruncatePassword(password: string): (t: string)
    ensures t == Utf8.FitPrefix(password, PasswordByteLimit)
    ensures |t| <= |password| && t == password[..|t|]
    ensures |Utf8.Encode(t)| <= PasswordByteLimit
    ensures |t| < |password| ==>
              |Utf8.Encode(t)| + |Utf8.EncodeChar(password[|t|])| > PasswordByteLimit
  {
    Utf8.TruncateDecodes(password, PasswordByteLimit);
    Utf8.FitPrefixIsLongestFittingPrefix(password, PasswordByteLimit);
    Utf8.DecodeIgnore(Utf8.Take(Utf8.Encode(password), PasswordByteLimit))
  }

  /** `hash_password`: bcrypt sees the longest prefix that fits in 72 bytes, so a password that fits is hashed whole. */
  function HashPassword(p: Primitives, password: string, salt: string): (h: string)
    ensures h == p.bcryptHash(Utf8.FitPrefix(password, PasswordByteLimit), salt)
    ensures |Utf8.Encode(password)| <= PasswordByteLimit ==> h == p.bcryptHash(password, salt)
  {
    assert |Utf8.Encode(password)| <= PasswordByteLimit ==> TruncatePassword(password) == password by {
      if |Utf8.Encode(password)| <= PasswordByteLimit {
        ShortPasswordKept(password);
      }
    }
    p.bcryptHash(TruncatePassword(password), salt)
  }

  /** `verify_password`: the same truncation as `hash_password`, then bcrypt's check. */
  function VerifyPassword(p: Primitives, plain: string, hashed: string): (ok: bool)
    ensures ok == p.bcryptVerify(Utf8.FitPrefix(plain, PasswordByteLimit), hashed)
    ensures |Utf8.Encode(plain)| <= PasswordByteLimit ==> ok == p.bcryptVerify(plain, hashed)
  {
    assert |Utf8.Encode(plain)| <= PasswordByteLimit ==> TruncatePassword(plain) == plain by {
      if |Utf8.Encode(plain)| <= PasswordByteLimit {
        ShortPasswordKept(plain);
      }
    }
    p.bcryptVerify(TruncatePassword(plain), hashed)
  }

  /** Hashing and verifying apply the same truncation, so a stored hash accepts its password. */
  lemma HashThenVerify(p: Primitives, password: string, salt: string)
    requires BcryptSound(p)
    ensures VerifyPassword(p, password, HashPassword(p, password, salt))
  {
  }

  /** A password short enough for bcrypt is passed on whole. */
  lemma ShortPasswordKept(password: string)
    requires |Utf8.Encode(password)| <= PasswordByteLimit
    ensures TruncatePassword(password) == password
  {
    assert Utf8.Take(Utf8.Encode(password), PasswordByteLimit) == Utf8.Encode(password);
    Utf8.TruncateDecodes(password, |Utf8.Encode(password)|);
    Utf8.FitPrefixWhole(password);
  }

  /**
    Once a password fills bcrypt's 72 bytes, whatever follows it is ignored:
    the longer password hashes the same and verifies against the same hashes.
   */
  lemma SuffixBeyondLimitIgnored(p: Primitives, password: string, extra: string, salt: string, hashed: string)
    requires |Utf8.Encode(password)| >= PasswordByteLimit
    ensures TruncatePassword(password + extra) == TruncatePassword(password)
    ensures HashPassword(p, password + extra, salt) == HashPassword(p, password, salt)
    ensures VerifyPassword(p, password + extra, hashed) == VerifyPassword(p, password, hashed)
  {
    var e := Utf8.Encode(password);
    Utf8.EncodeAppend(password, extra);
    assert (e + Utf8.Encode(extra))[..PasswordByteLimit] == e[..PasswordByteLimit];
  }

  // ---------------------------------------------------------------------------
  // Access tokens
  // ---------------------------------------------------------------------------

  /** The session token: subject and an expiry 12 hours after `now`. */
  function CreateAccessToken(p: Primitives, subject: string, now: int): (token: string)
    ensures JwtSound(p) ==> token != ""
    ensures JwtSound(p) ==> p.jwtDecode(token, now) == Some(Claims(Some(subject), now + AccessTokenLifetime))
  {
    p.jwtEncode(Claims(Some(subject), now + AccessTokenLifetime))
  }

  /** An access token yields its subject back for the next 12 hours, and that subject is present. */
  lemma AccessTokenDecodes(p: Primitives, subject: string, now: int, later: int)
    requires JwtSound(p)
    requires now <= later <= now + AccessTokenLifetime
    ensures p.jwtDecode(CreateAccessToken(p, subject, now), later).Some?
    ensures p.jwtDecode(CreateAccessToken(p, subject, now), later).value.sub == Some(subject)
    ensures p.jwtDecode(CreateAccessToken(p, subject, now), later).value.exp == now + AccessTokenLifetime
  {
    var c := Claims(Some(subject), now + AccessTokenLifetime);
    assert p.jwtDecode(p.jwtEncode(c), later) == Some(c);
  }

  // ---------------------------------------------------------------------------
  // Reset tokens
  // ---------------------------------------------------------------------------

  /** The digest stored for a reset token: SHA-256 of its UTF-8 bytes, in hex. */
  function TokenDigest(p: Primitives, token: string): (d: string)
    ensures Sha256CollisionFree(p) ==> forall other :: p.sha256Hex(Utf8.Encode(other)) == d ==> other == token
  {
    assert Sha256CollisionFree(p) ==>
             forall other :: p.sha256Hex(Utf8.Encode(other)) == p.sha256Hex(Utf8.Encode(token)) ==> other == token by {
      if Sha256CollisionFree(p) {
        forall other | p.sha256Hex(Utf8.Encode(other)) == p.sha256Hex(Utf8.Encode(token)) ensures other == token {
          Utf8.EncodeInjective(other, token);
        }
      }
    }
    p.sha256Hex(Utf8.Encode(token))
  }

  /**
    A fresh reset token and the digest to store; `random` stands for the
    output of `secrets.token_urlsafe(32)`. The pair always verifies.
   */
  function CreateResetToken(p: Primitives, random: string): (pair: (string, string))
    ensures pair.0 == random
    ensures VerifyResetToken(p, pair.0, pair.1)
  {
    (random, TokenDigest(p, random))
  }

  /** `verify_reset_token`: against the digest of any token, only that token verifies. */
  function VerifyResetToken(p: Primitives, token: string, tokenHash: string): (ok: bool)
    ensures Sha256CollisionFree(p) ==>
              forall issued :: tokenHash == TokenDigest(p, issued) ==> (ok <==> token == issued)
  {
    TokenDigest(p, token) == tokenHash
  }

  /** With a collision-free digest, the stored hash of a token accepts that token and no other. */
  lemma OnlyIssuedTokenVerifies(p: Primitives, random: string, token: string)
    requires Sha256CollisionFree(p)
    ensures VerifyResetToken(p, token, CreateResetToken(p, random).1) <==> token == random
  {
    if VerifyResetToken(p, token, CreateResetToken(p, random).1) {
      Utf8.EncodeInjective(token, random);
    }
  }
}
