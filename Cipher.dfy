/**
 * The per-algorithm ciphers and the registry that picks one by name
 * (file/src/service/cipher.rs).
 *
 * The trait object `Box<dyn Cipher>` becomes a closed datatype with one
 * constructor per implementation; `encrypt` and `decrypt` dispatch on it.
 * The ChaCha20-Poly1305 primitive itself is foreign library code: it is an
 * `Aead` value (its seal and open functions), and the laws that section 2.8
 * of RFC 8439 gives it are the predicate `IsChaCha20Poly1305`, assumed by
 * the lemmas that need them. The random key and nonce that `OsRng` draws
 * are a `Draw` parameter.
 */
module Cipher {
  import opened Wrappers
  import opened Base64

  /** A ChaCha20-Poly1305 key is 32 bytes. */
  const KEY_LEN: nat := 32
  /** A ChaCha20-Poly1305 nonce is 12 bytes. */
  const NONCE_LEN: nat := 12
  /** The Poly1305 tag appended to every ciphertext is 16 bytes. */
  const TAG_LEN: nat := 16

  type Key = k: seq<byte> | |k| == KEY_LEN witness seq(32, _ => 0)
  type Nonce = n: seq<byte> | |n| == NONCE_LEN witness seq(12, _ => 0)

  /** What one `encrypt` call draws from `OsRng`: a fresh key and a fresh nonce. */
  datatype Draw = Draw(key: Key, nonce: Nonce)

  /** The AEAD library: seal(key, nonce, plaintext) and open(key, nonce, ciphertext). */
  datatype Aead = Aead(
    seal: (seq<byte>, seq<byte>, seq<byte>) -> seq<byte>,
    open: (seq<byte>, seq<byte>, seq<byte>) -> Option<seq<byte>>)

  /**
   * The laws of ChaCha20-Poly1305 without associated data (section 2.8 of
   * RFC 8439), for a 32-byte key and a 12-byte nonce: the ciphertext is the
   * plaintext's length plus the 16-byte tag, and opening succeeds exactly on
   * what sealing produces (sealing is deterministic and the tag is checked),
   * returning the plaintext.
   */
  ghost predicate IsChaCha20Poly1305(a: Aead) {
    && (forall k, n, p :: |k| == KEY_LEN && |n| == NONCE_LEN ==> |a.seal(k, n, p)| == |p| + TAG_LEN)
    && (forall k, n, c, p {:trigger a.open(k, n, c), a.seal(k, n, p)} ::
          |k| == KEY_LEN && |n| == NONCE_LEN ==> (a.open(k, n, c) == Some(p) <==> c == a.seal(k, n, p)))
  }

  /** The three implementations of the `Cipher` trait. */
  datatype Cipher = Aes256GcmCipher | Aes128GcmCipher | ChaChaCipher

  /** A call that returns normally, or a Rust panic. */
  datatype Outcome<T> = Done(value: T) | Panic(message: string)

  /** What `encrypt` returns: (ciphertext, key, nonce). */
  datatype Sealed = Sealed(cipherText: seq<byte>, key: seq<byte>, nonce: seq<byte>)

  /** The bytes of `b"key"`, the fixed key of the AES placeholders. */
  const PLACEHOLDER_KEY: seq<byte> := [0x6b, 0x65, 0x79]

  /** `get_cipher`: the registry; any name but the three panics. */
  function GetCipher(name: string): (r: Outcome<Cipher>)
    ensures r.Done? <==> name in {"aes256gcm", "aes128gcm", "chacha20poly1305"}
    ensures r.Done? && r.value.ChaChaCipher? <==> name == "chacha20poly1305"
  {
    if name == "aes256gcm" then Done(Aes256GcmCipher)
    else if name == "aes128gcm" then Done(Aes128GcmCipher)
    else if name == "chacha20poly1305" then Done(ChaChaCipher)
    else Panic("Unsupported encryption method")
  }

  /**
   * `Cipher::encrypt`. The AES variants are placeholders that hand back the
   * data as ciphertext with key `b"key"` and an empty nonce; ChaCha seals
   * the data under the drawn key and nonce.
   */
  function Encrypt(c: Cipher, aead: Aead, draw: Draw, data: seq<byte>): (r: Sealed)
    ensures c != ChaChaCipher ==> r == Sealed(data, PLACEHOLDER_KEY, [])
    ensures c == ChaChaCipher ==> r.key == draw.key && r.nonce == draw.nonce
  {
    match c
    case Aes256GcmCipher => Sealed(data, PLACEHOLDER_KEY, [])
    case Aes128GcmCipher => Sealed(data, PLACEHOLDER_KEY, [])
    case ChaChaCipher => Sealed(aead.seal(draw.key, draw.nonce, data), draw.key, draw.nonce)
  }

  /**
   * `Cipher::decrypt`. The AES variants return the data whatever the key
   * and nonce. ChaCha panics when the key is not 32 bytes (`Key::from_slice`)
   * or, failing that, when the nonce is not 12 bytes (`Nonce::from_slice`);
   * otherwise it opens the data and answers an empty vector when the tag
   * does not verify.
   */
  function Decrypt(c: Cipher, aead: Aead, data: seq<byte>, key: seq<byte>, nonce: seq<byte>): (r: Outcome<seq<byte>>)
    ensures c != ChaChaCipher ==> r == Done(data)
    ensures c == ChaChaCipher ==> (r.Panic? <==> |key| != KEY_LEN || |nonce| != NONCE_LEN)
  {
    match c
    case Aes256GcmCipher => Done(data)
    case Aes128GcmCipher => Done(data)
    case ChaChaCipher =>
      if |key| != KEY_LEN then Panic("key length")
      else if |nonce| != NONCE_LEN then Panic("nonce length")
      else Done(aead.open(key, nonce, data).GetOr([]))
  }

  /** Every cipher decrypts what it encrypted. */
  lemma RoundTrip(c: Cipher, aead: Aead, draw: Draw, p: seq<byte>)
    requires IsChaCha20Poly1305(aead)
    ensures var s := Encrypt(c, aead, draw, p);
      Decrypt(c, aead, s.cipherText, s.key, s.nonce) == Done(p)
  {
    if c == ChaChaCipher {
      var s := Encrypt(c, aead, draw, p);
      assert aead.open(s.key, s.nonce, aead.seal(draw.key, draw.nonce, p)) == Some(p);
    }
  }

  /** ChaCha's output: a 32-byte key, a 12-byte nonce and a ciphertext 16 bytes longer than the plaintext. */
  lemma ChaChaShape(aead: Aead, draw: Draw, p: seq<byte>)
    requires IsChaCha20Poly1305(aead)
    ensures var s := Encrypt(ChaChaCipher, aead, draw, p);
      |s.key| == 32 && |s.nonce| == 12 && |s.cipherText| == |p| + 16
  {
  }

  /**
   * A ciphertext that no plaintext seals to decrypts to the empty vector,
   * exactly what the sealed empty plaintext decrypts to: the caller cannot
   * tell an authentication failure from an empty file.
   */
  lemma AuthFailureLooksEmpty(aead: Aead, k: Key, n: Nonce, forged: seq<byte>)
    requires IsChaCha20Poly1305(aead)
    requires forall p :: forged != aead.seal(k, n, p)
    ensures Decrypt(ChaChaCipher, aead, forged, k, n) == Done([])
    ensures Decrypt(ChaChaCipher, aead, aead.seal(k, n, []), k, n) == Done([])
  {
    var guess := aead.open(k, n, forged).GetOr([]);
    assert aead.open(k, n, forged) == Some(guess) ==> forged == aead.seal(k, n, guess);
    assert aead.open(k, n, aead.seal(k, n, [])) == Some([]);
  }

  /** The empty ciphertext, too short to hold a tag, fails authentication and decrypts to the empty vector. */
  lemma EmptyCipherTextOpensEmpty(aead: Aead, k: Key, n: Nonce)
    requires IsChaCha20Poly1305(aead)
    ensures Decrypt(ChaChaCipher, aead, [], k, n) == Done([])
  {
    var guess := aead.open(k, n, []).GetOr([]);
    assert aead.open(k, n, []) == Some(guess) ==> [] == aead.seal(k, n, guess);
  }

  /** Tampering is caught for a non-empty plaintext: any other ciphertext never decrypts to it. */
  lemma TamperNeverYieldsPlaintext(aead: Aead, k: Key, n: Nonce, p: seq<byte>, tampered: seq<byte>)
    requires IsChaCha20Poly1305(aead)
    requires p != [] && tampered != aead.seal(k, n, p)
    ensures Decrypt(ChaChaCipher, aead, tampered, k, n) != Done(p)
  {
    assert aead.open(k, n, tampered) == Some(p) ==> tampered == aead.seal(k, n, p);
  }

  /** The two AES placeholders behave identically on every input. */
  lemma AesVariantsAgree(aead: Aead, draw: Draw, data: seq<byte>, key: seq<byte>, nonce: seq<byte>)
    ensures Encrypt(Aes128GcmCipher, aead, draw, data) == Encrypt(Aes256GcmCipher, aead, draw, data)
    ensures Decrypt(Aes128GcmCipher, aead, data, key, nonce) == Decrypt(Aes256GcmCipher, aead, data, key, nonce)
  {
  }

  /**
   * The AES placeholders ignore the draw: two calls give the same key and
   * nonce whatever `OsRng` yields, and the ciphertext is the plaintext.
   * Nothing here is assumed about the randomness itself.
   */
  lemma AesPlaceholderIsNotFresh(c: Cipher, aead: Aead, d1: Draw, d2: Draw, p: seq<byte>)
    requires c != ChaChaCipher
    ensures Encrypt(c, aead, d1, p) == Encrypt(c, aead, d2, p)
    ensures Encrypt(c, aead, d1, p).cipherText == p
  {
  }

  /**
   * ChaCha's key and nonce are exactly the draws, so distinct draws give
   * distinct key material. That two draws from `OsRng` differ is the
   * hypothesis `d1 != d2`, taken as given, not something proved here.
   */
  lemma ChaChaIsFresh(aead: Aead, d1: Draw, d2: Draw, p: seq<byte>)
    requires d1 != d2
    ensures var s1, s2 := Encrypt(ChaChaCipher, aead, d1, p), Encrypt(ChaChaCipher, aead, d2, p);
      (s1.key, s1.nonce) != (s2.key, s2.nonce)
  {
  }
}
