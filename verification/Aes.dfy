/** internal/crypto/aes.go: the AES-GCM envelope and salted password hashes. */
module Aes {
  import opened Basics
  import Hex
  import Text

  const KEY_LENGTH := 32
  const NONCE_LENGTH := 12

  /** AES-GCM itself is not modelled: a pair of functions on (key, nonce, text). */
  datatype Aead = Aead(seal: (Bytes, Bytes, Bytes) -> Bytes, open: (Bytes, Bytes, Bytes) -> Option<Bytes>)

  /** What is assumed of it: opening undoes sealing under the same key and nonce. */
  ghost predicate Sound(aead: Aead) {
    forall key, nonce, plain :: aead.open(key, nonce, aead.seal(key, nonce, plain)) == Some(plain)
  }

  datatype CryptoError = InvalidKeySize | NoEntropy | TooShort | Tampered

  /** `nonce` is what the random source yields, None when it fails. */
  function Encrypt(aead: Aead, plain: Bytes, key: Bytes, nonce: Option<Bytes>): Result<Bytes, CryptoError>
    requires nonce.Some? ==> |nonce.value| == NONCE_LENGTH
  {
    if |key| != KEY_LENGTH then Err(InvalidKeySize)
    else if nonce.None? then Err(NoEntropy)
    else Ok(nonce.value + aead.seal(key, nonce.value, plain))
  }

  function Decrypt(aead: Aead, data: Bytes, key: Bytes): Result<Bytes, CryptoError> {
    if |key| != KEY_LENGTH then Err(InvalidKeySize)
    else if |data| < NONCE_LENGTH then Err(TooShort)
    else
      match aead.open(key, data[..NONCE_LENGTH], data[NONCE_LENGTH..])
      case Some(plain) => Ok(plain)
      case None => Err(Tampered)
  }

  /** Encryption succeeds exactly with a 32-byte key and a nonce, and decryption undoes it. */
  lemma EnvelopeRoundTrip(aead: Aead, plain: Bytes, key: Bytes, nonce: Option<Bytes>)
    requires Sound(aead)
    requires nonce.Some? ==> |nonce.value| == NONCE_LENGTH
    ensures Encrypt(aead, plain, key, nonce).Ok? <==> |key| == KEY_LENGTH && nonce.Some?
    ensures Encrypt(aead, plain, key, nonce).Ok? ==>
              Decrypt(aead, Encrypt(aead, plain, key, nonce).value, key) == Ok(plain)
  {
    if |key| == KEY_LENGTH && nonce.Some? {
      var data := Encrypt(aead, plain, key, nonce).value;
      assert data[..NONCE_LENGTH] == nonce.value;
      assert data[NONCE_LENGTH..] == aead.seal(key, nonce.value, plain);
    }
  }

  /** Nothing else decrypts than what the cipher itself opens under the key and the leading 12 bytes. */
  lemma DecryptsOnlyOpened(aead: Aead, data: Bytes, key: Bytes, plain: Bytes)
    ensures Decrypt(aead, data, key) == Ok(plain) <==>
            |key| == 32 && |data| >= 12 && aead.open(key, data[..12], data[12..]) == Some(plain)
  {
  }

  function HashPassword(sha: Bytes -> Bytes, salt: Bytes, password: Bytes): string {
    Hex.Encode(salt) + "$" + Hex.Encode(sha(salt + password))
  }

  predicate VerifyPassword(sha: Bytes -> Bytes, password: Bytes, stored: string) {
    var parts := Text.Split(stored, '$');
    && |parts| == 2
    && var salt, expected := Hex.Decode(parts[0]), Hex.Decode(parts[1]);
    && salt.Some? && expected.Some?
    && sha(salt.value + password) == expected.value
  }

  predicate Matches(sha: Bytes -> Bytes, password: Bytes, stored: string, a: string, b: string) {
    && stored == a + ['$'] + b && '$' !in a && '$' !in b
    && Hex.Decode(a).Some? && Hex.Decode(b) == Some(sha(Hex.Decode(a).value + password))
  }

  /** Whatever is stored: it accepts a password exactly if it is two hexadecimal texts with one dollar sign
      between them, and the second spells the digest of the first's bytes and the password. */
  lemma VerifyInFigures(sha: Bytes -> Bytes, password: Bytes, stored: string)
    ensures VerifyPassword(sha, password, stored) <==> exists a, b :: Matches(sha, password, stored, a, b)
  {
    var parts := Text.Split(stored, '$');
    Text.JoinSplit(stored, '$');
    Text.SplitPartsClean(stored, '$');
    if VerifyPassword(sha, password, stored) {
      assert parts == [parts[0], parts[1]];
      TwoParts(parts[0], parts[1]);
      assert Matches(sha, password, stored, parts[0], parts[1]);
    }
    if a, b :| Matches(sha, password, stored, a, b) {
      TwoParts(a, b);
      Text.SplitJoin([a, b], '$');
    }
  }

  lemma TwoParts(a: string, b: string)
    ensures Text.Join([a, b], '$') == a + ['$'] + b
  {
    assert [a, b][1..] == [b];
  }

  /** A stored hash accepts a password exactly when the salted digests agree. */
  lemma VerifyAccepts(sha: Bytes -> Bytes, salt: Bytes, password: Bytes, attempt: Bytes)
    ensures VerifyPassword(sha, attempt, HashPassword(sha, salt, password)) <==>
            sha(salt + attempt) == sha(salt + password)
  {
    var digest := sha(salt + password);
    Hex.RoundTrip(salt);
    Hex.RoundTrip(digest);
    var parts := [Hex.Encode(salt), Hex.Encode(digest)];
    assert Text.Join(parts[1..], '$') == parts[1];
    Text.SplitJoin(parts, '$');
  }
}
