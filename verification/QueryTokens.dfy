/**
 Signed query tokens: the compressed payload and its keyed digest, spelled in unpadded URL-safe Base64.
 Digest, compression and the JSON schema are parameters, of which only inverse laws are used.
 */
module QueryTokens {
  import opened Base64
  import opened Text
  import opened Wrappers

  const MAX_TOKEN_BYTES := 8 * 1024
  const MAX_DECODED_BYTES := 64 * 1024
  const SIGNATURE_BYTES := 32
  const TOKEN_VERSION := 2
  const MAX_LIFETIME_SECONDS := 2 * 60 * 60

  datatype TokenError =
    | BadEncoding | BadSize | NotCanonical | BadDecodedSize | BadSignature | PayloadTooLarge | TokenTooLarge
    | BadCompression | BadPayload | BadVersion | FromTheFuture | Expired | BadLifetime | RepeatedAlias | BadSql
    | SqlNotCanonical

  // ---------- authentication ----------

  /** A digest of this length keyed with the secret. */
  ghost predicate IsDigest(digest: seq<Byte> -> seq<Byte>) {
    forall b :: |digest(b)| == 32
  }

  function Sign(digest: seq<Byte> -> seq<Byte>, compressed: seq<Byte>): Result<string, TokenError> {
    var token := Spell(compressed + digest(compressed));
    if |token| > MAX_TOKEN_BYTES then Err(TokenTooLarge) else Ok(token)
  }

  function Authenticate(digest: seq<Byte> -> seq<Byte>, token: string): Result<seq<Byte>, TokenError> {
    if !IsAscii(token) then Err(BadEncoding)
    else if token == "" || |token| > MAX_TOKEN_BYTES || '=' in token then Err(BadSize)
    else
      match Decode(true, Padded(token))
      case None => Err(BadEncoding)
      case Some(signed) =>
        if token != Spell(signed) then Err(NotCanonical)
        else if |signed| <= SIGNATURE_BYTES || |signed| > MAX_DECODED_BYTES then Err(BadDecodedSize)
        else
          var n := |signed| - SIGNATURE_BYTES;
          if signed[n..] != digest(signed[..n]) then Err(BadSignature) else Ok(signed[..n])
  }

  lemma {:induction false} SpellingIsPlain(b: seq<Byte>)
    ensures IsAscii(Spell(b)) && '=' !in Spell(b)
  {
    SpellIsSpelling(b);
  }

  /** The one spelling of a payload and its digest, within the size limit. */
  ghost predicate IsTokenOf(digest: seq<Byte> -> seq<Byte>, token: string, compressed: seq<Byte>) {
    |compressed| > 0 && token == Spell(compressed + digest(compressed)) && |token| <= 8192
  }

  /** A token is accepted for a payload if and only if it is the spelling of that payload and its digest. */
  lemma {:induction false} AcceptsExactlyTheSpelling(digest: seq<Byte> -> seq<Byte>, token: string,
      compressed: seq<Byte>)
    requires IsDigest(digest)
    ensures Authenticate(digest, token) == Ok(compressed) <==> IsTokenOf(digest, token, compressed)
  {
    var signed := compressed + digest(compressed);
    if IsTokenOf(digest, token, compressed) {
      SpellingIsPlain(signed);
      SpellLength(signed);
      RoundTrip(true, signed);
      assert signed[..|compressed|] == compressed && signed[|compressed|..] == digest(compressed);
    }
    if Authenticate(digest, token) == Ok(compressed) {
      var decoded := Decode(true, Padded(token)).value;
      assert decoded == decoded[..|decoded| - SIGNATURE_BYTES] + decoded[|decoded| - SIGNATURE_BYTES..];
      assert decoded == signed;
    }
  }

  /** What a token that fails to authenticate with this error is like. */
  ghost predicate FailsFor(digest: seq<Byte> -> seq<Byte>, token: string, e: TokenError) {
    var signed := Decode(true, Padded(token));
    match e
    case BadEncoding => !IsAscii(token) || signed.None?
    case BadSize => token == "" || |token| > 8192 || '=' in token
    case NotCanonical => signed.Some? && token != Spell(signed.value)
    case BadDecodedSize => signed.Some? && !(32 < |signed.value| <= 65536)
    case BadSignature =>
      && signed.Some? && |signed.value| > 32
      && signed.value[|signed.value| - 32..] != digest(signed.value[..|signed.value| - 32])
    case _ => false
  }

  /** A token authenticates exactly when it is a payload's; any other fails for a reason it has. */
  lemma {:induction false} RefusedForAReason(digest: seq<Byte> -> seq<Byte>, token: string)
    requires IsDigest(digest)
    ensures match Authenticate(digest, token)
            case Ok(compressed) => IsTokenOf(digest, token, compressed)
            case Err(e) => FailsFor(digest, token, e) && forall compressed :: !IsTokenOf(digest, token, compressed)
  {
    forall compressed ensures Authenticate(digest, token) == Ok(compressed) <==> IsTokenOf(digest, token, compressed) {
      AcceptsExactlyTheSpelling(digest, token, compressed);
    }
  }

  // ---------- whole tokens ----------

  /** Fields besides the checked ones stand in detail. Times are in microseconds on the caller's side. */
  datatype Payload =
    Payload(version: int, sql: string, aliases: seq<string>, detail: string, issuedAt: int, expiresAt: int)

  datatype Library = Library(
    digest: seq<Byte> -> seq<Byte>,
    serialize: Payload -> seq<Byte>,
    parse: seq<Byte> -> Option<Payload>,
    compress: seq<Byte> -> seq<Byte>,
    decompress: seq<Byte> -> Option<seq<Byte>>,
    fold: string -> string,
    canonical: (string, set<string>) -> Option<string>)

  /** Parsing undoes serializing a payload the schema admits, and bounded decompression undoes compression. */
  ghost predicate InverseLaws(lib: Library, p: Payload) {
    && IsDigest(lib.digest)
    && lib.parse(lib.serialize(InSeconds(p))) == Some(InSeconds(p))
    && |lib.compress(lib.serialize(InSeconds(p)))| > 0
    && (|lib.serialize(InSeconds(p))| <= 65536 ==>
          lib.decompress(lib.compress(lib.serialize(InSeconds(p)))) == Some(lib.serialize(InSeconds(p))))
  }

  /** Whole seconds, towards zero. */
  function Seconds(microseconds: int): int {
    if microseconds >= 0 then microseconds / 1_000_000 else -(-microseconds / 1_000_000)
  }

  function InSeconds(p: Payload): Payload {
    p.(issuedAt := Seconds(p.issuedAt), expiresAt := Seconds(p.expiresAt))
  }

  function EncodeToken(lib: Library, p: Payload): Result<string, TokenError> {
    var serialized := lib.serialize(InSeconds(p));
    if |serialized| > MAX_DECODED_BYTES then Err(PayloadTooLarge) else Sign(lib.digest, lib.compress(serialized))
  }

  function FoldedAliases(lib: Library, aliases: seq<string>): set<string> {
    set a | a in aliases :: lib.fold(a)
  }

  /** The checks of a parsed payload, in their order. */
  function Check(lib: Library, p: Payload, now: int): Option<TokenError> {
    var lifetime := p.expiresAt - p.issuedAt;
    if p.version != TOKEN_VERSION then Some(BadVersion)
    else if p.issuedAt > Seconds(now) then Some(FromTheFuture)
    else if p.expiresAt <= Seconds(now) then Some(Expired)
    else if lifetime <= 0 || lifetime > MAX_LIFETIME_SECONDS then Some(BadLifetime)
    else if |FoldedAliases(lib, p.aliases)| != |p.aliases| then Some(RepeatedAlias)
    else
      var sql := lib.canonical(p.sql, set a | a in p.aliases);
      if sql.None? then Some(BadSql) else if sql.value != p.sql then Some(SqlNotCanonical) else None
  }

  function DecodeToken(lib: Library, token: string, now: int): Result<Payload, TokenError> {
    match Authenticate(lib.digest, token)
    case Err(e) => Err(e)
    case Ok(compressed) =>
      match lib.decompress(compressed)
      case None => Err(BadCompression)
      case Some(serialized) =>
        match lib.parse(serialized)
        case None => Err(BadPayload)
        case Some(p) =>
          match Check(lib, p, now)
          case Some(e) => Err(e)
          case None => Ok(p)
  }

  /** Whole seconds are within one of the time, on the side of zero. */
  lemma {:induction false} SecondsTruncate(microseconds: int)
    ensures var left := microseconds - Seconds(microseconds) * 1_000_000;
            if microseconds >= 0 then 0 <= left < 1_000_000 else -1_000_000 < left <= 0
  {
    var magnitude := if microseconds >= 0 then microseconds else -microseconds;
    assert magnitude == magnitude / 1_000_000 * 1_000_000 + magnitude % 1_000_000;
  }

  /** A token is issued if and only if payload and token keep within their sizes, and then it is the payload's. */
  lemma {:induction false} IssuedExactlyWhen(lib: Library, p: Payload, token: string)
    requires InverseLaws(lib, p)
    ensures var serialized := lib.serialize(p.(issuedAt := Seconds(p.issuedAt), expiresAt := Seconds(p.expiresAt)));
            EncodeToken(lib, p) == Ok(token) <==>
              |serialized| <= 65536 && IsTokenOf(lib.digest, token, lib.compress(serialized))
  {
  }

  /** What a payload fails on: the first of these conditions that it meets. */
  ghost predicate FailsWith(lib: Library, p: Payload, now: int, e: TokenError) {
    if p.version != 2 then e == BadVersion
    else if Seconds(now) < p.issuedAt then e == FromTheFuture
    else if p.expiresAt <= Seconds(now) then e == Expired
    else if p.expiresAt - p.issuedAt > 7200 then e == BadLifetime
    else if |FoldedAliases(lib, p.aliases)| < |p.aliases| then e == RepeatedAlias
    else if lib.canonical(p.sql, set a | a in p.aliases).None? then e == BadSql
    else e == SqlNotCanonical && lib.canonical(p.sql, set a | a in p.aliases) != Some(p.sql)
  }

  lemma {:induction false} FoldedAreFew(lib: Library, aliases: seq<string>)
    ensures |FoldedAliases(lib, aliases)| <= |aliases|
  {
    if aliases == [] {
      assert FoldedAliases(lib, aliases) == {};
    } else {
      var front, last := aliases[..|aliases| - 1], aliases[|aliases| - 1];
      FoldedAreFew(lib, front);
      assert FoldedAliases(lib, aliases) == FoldedAliases(lib, front) + {lib.fold(last)};
    }
  }

  /** When a payload may be used: current, short-lived, with distinct aliases and canonical SQL. */
  ghost predicate Usable(lib: Library, p: Payload, now: int) {
    && p.version == 2
    && p.issuedAt <= Seconds(now) < p.expiresAt && p.expiresAt - p.issuedAt <= 7200
    && |FoldedAliases(lib, p.aliases)| == |p.aliases|
    && lib.canonical(p.sql, set a | a in p.aliases) == Some(p.sql)
  }

  /**
   A token that was issued decodes, to its payload in whole seconds, exactly while that payload is
   usable; at any other time it fails on one of the checks.
   */
  lemma {:induction false} IssuedTokensDecodeWhileUsable(lib: Library, p: Payload, token: string, now: int)
    requires InverseLaws(lib, p) && EncodeToken(lib, p) == Ok(token)
    ensures Usable(lib, InSeconds(p), now) <==> DecodeToken(lib, token, now) == Ok(InSeconds(p))
    ensures var decoded := DecodeToken(lib, token, now);
            decoded.Err? ==> FailsWith(lib, InSeconds(p), now, decoded.error)
  {
    FoldedAreFew(lib, p.aliases);
    var compressed := lib.compress(lib.serialize(InSeconds(p)));
    AcceptsExactlyTheSpelling(lib.digest, token, compressed);
  }

  /** Nothing decodes but the spelling of some payload under its own digest, usable at that time. */
  lemma {:induction false} OnlySignedPayloadsDecode(lib: Library, token: string, now: int)
    requires IsDigest(lib.digest) && DecodeToken(lib, token, now).Ok?
    ensures Usable(lib, DecodeToken(lib, token, now).value, now)
    ensures exists compressed :: IsTokenOf(lib.digest, token, compressed)
  {
    var compressed := Authenticate(lib.digest, token).value;
    AcceptsExactlyTheSpelling(lib.digest, token, compressed);
  }
}
