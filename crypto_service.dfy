/** The client's cryptography service: the byte/base64 codec, RSA-OAEP key
    pairs exported as JWK text, message encryption and decryption, and the
    password-protected envelope that keeps the private key in
    `localStorage`.

    The Web Crypto primitives, `TextEncoder` and `TextDecoder` are fields of
    a `WebCrypto` record; what the code relies on them for is stated as
    predicates over that record, which the lemmas below take as
    preconditions. */
module CryptoService {
  import opened Wrappers
  import opened Octets
  import opened Strings
  import Base64
  import opened BrowserStorage

  /** The algorithm parameters of a `deriveKey` call. */
  datatype KdfParams = KdfParams(
    algorithm: string, hash: string, iterations: nat,
    derivedAlgorithm: string, derivedLength: nat)

  /** The algorithm parameters of an RSA `generateKey` or `importKey` call. */
  datatype RsaParams = RsaParams(
    algorithm: string, modulusLength: nat, publicExponent: Bytes, hash: string)

  /** PBKDF2 over SHA-256 with 100000 iterations, deriving a 256-bit AES-GCM key. */
  const EnvelopeKdf := KdfParams("PBKDF2", "SHA-256", 100000, "AES-GCM", 256)

  /** RSA-OAEP with a 2048-bit modulus, exponent 65537 and SHA-256. */
  const OaepParams := RsaParams("RSA-OAEP", 2048, [1, 0, 1], "SHA-256")

  const SaltLength := 16
  const IvLength := 12

  /** The `localStorage` key of the envelope. */
  const EnvelopeKey := "securePrivateKey"

  const KeyGenerationFailed := "Failed to generate encryption keys"
  const EncryptFailed := "Failed to encrypt data"
  const DecryptFailed := "Failed to decrypt data"

  /** A key pair as the two JWK texts `JSON.stringify` gives. */
  datatype KeyPair = KeyPair(publicKey: string, privateKey: string)

  /** A `CryptoKey` obtained by importing a JWK. */
  datatype CryptoKey = CryptoKey(handle: Bytes)

  /** The primitives the service calls. A `None` result stands for a
      rejected promise. */
  datatype WebCrypto = WebCrypto(
    // TextEncoder.encode (UTF-8) and TextDecoder.decode
    encodeText: string -> Bytes,
    decodeText: Bytes -> string,
    // importKey("raw", password bytes, "PBKDF2") followed by deriveKey:
    // password bytes, salt, parameters -> AES key
    deriveKey: (Bytes, Bytes, KdfParams) -> Bytes,
    // AES-GCM encrypt and decrypt: key, iv, data; decrypt fails on a bad tag
    aesGcmEncrypt: (Bytes, Bytes, Bytes) -> Bytes,
    aesGcmDecrypt: (Bytes, Bytes, Bytes) -> Option<Bytes>,
    // generateKey followed by exportKey("jwk") and JSON.stringify, from random input
    generateRsaKeyPair: (RsaParams, Bytes) -> Option<KeyPair>,
    // JSON.parse followed by importKey("jwk", ...)
    importPublicKey: (string, RsaParams) -> Option<CryptoKey>,
    importPrivateKey: (string, RsaParams) -> Option<CryptoKey>,
    // RSA-OAEP encrypt (key, random seed, message) and decrypt (key, ciphertext)
    rsaOaepEncrypt: (CryptoKey, Bytes, Bytes) -> Option<Bytes>,
    rsaOaepDecrypt: (CryptoKey, Bytes) -> Option<Bytes>)

  /** UTF-8 decoding inverts UTF-8 encoding. */
  ghost predicate TextRoundTrip(wc: WebCrypto) {
    forall s: string :: wc.decodeText(wc.encodeText(s)) == s
  }

  /** AES-GCM decryption under the key and IV used to encrypt succeeds and
      returns the plaintext. */
  ghost predicate AeadCorrect(wc: WebCrypto) {
    forall key: Bytes, iv: Bytes, m: Bytes :: wc.aesGcmDecrypt(key, iv, wc.aesGcmEncrypt(key, iv, m)) == Some(m)
  }

  /** A ciphertext made under one key fails authentication under another. */
  ghost predicate AeadKeyBinding(wc: WebCrypto) {
    forall k1: Bytes, k2: Bytes, iv: Bytes, m: Bytes ::
      k1 != k2 ==> wc.aesGcmDecrypt(k2, iv, wc.aesGcmEncrypt(k1, iv, m)) == None
  }

  /** Only genuine ciphertexts authenticate: whatever decrypts is the
      encryption of what it decrypts to. */
  ghost predicate AeadIntegrity(wc: WebCrypto) {
    forall key: Bytes, iv: Bytes, c: Bytes :: wc.aesGcmDecrypt(key, iv, c).Some? ==>
      wc.aesGcmEncrypt(key, iv, wc.aesGcmDecrypt(key, iv, c).value) == c
  }

  /** Different passwords derive different keys from the same salt. */
  ghost predicate KdfCollisionFree(wc: WebCrypto) {
    forall p1: Bytes, p2: Bytes, salt: Bytes, params: KdfParams ::
      p1 != p2 ==> wc.deriveKey(p1, salt, params) != wc.deriveKey(p2, salt, params)
  }

  /** RSA-OAEP decryption with `priv` inverts every successful encryption with `pub`. */
  ghost predicate OaepInverse(wc: WebCrypto, pub: CryptoKey, priv: CryptoKey) {
    forall seed: Bytes, m: Bytes :: wc.rsaOaepEncrypt(pub, seed, m).Some? ==>
      wc.rsaOaepDecrypt(priv, wc.rsaOaepEncrypt(pub, seed, m).value) == Some(m)
  }

  /** Both halves import, and they are inverse. */
  ghost predicate KeyPairValid(wc: WebCrypto, kp: KeyPair) {
    wc.importPublicKey(kp.publicKey, OaepParams).Some?
    && wc.importPrivateKey(kp.privateKey, OaepParams).Some?
    && OaepInverse(wc, wc.importPublicKey(kp.publicKey, OaepParams).value,
                   wc.importPrivateKey(kp.privateKey, OaepParams).value)
  }

  /** Key generation yields valid pairs. */
  ghost predicate GeneratesValidPairs(wc: WebCrypto) {
    forall randomness: Bytes :: wc.generateRsaKeyPair(OaepParams, randomness).Some? ==>
      KeyPairValid(wc, wc.generateRsaKeyPair(OaepParams, randomness).value)
  }

  // ---------------------------------------------------------------------
  // Byte/base64 codec

  /** `bufferToBase64`: appends one character per byte, whose code is the
      byte, then applies `btoa`, which cannot throw on such a string. */
  method BufferToBase64(buffer: Bytes) returns (r: string)
    ensures Base64.Btoa(Latin1(buffer)) == Some(r)
    ensures r == Base64.Encode(buffer)
  {
    var binary := "";
    for i := 0 to |buffer|
      invariant binary == Latin1(buffer[..i])
    {
      binary := binary + [(buffer[i] as int) as char];
    }
    assert buffer[..|buffer|] == buffer;
    Base64.BtoaLatin1(buffer);
    var encoded := Base64.Btoa(binary);
    r := encoded.value;
  }

  /** What `base64ToBuffer` returns: the character codes of `atob`'s result,
      or `None` where `atob` throws. */
  function DecodeBuffer(base64: string): (r: Option<Bytes>)
    ensures r.None? <==> Base64.Atob(base64).None?
    ensures r.Some? ==> |r.value| == |Base64.Atob(base64).value|
    ensures r.Some? ==> forall i :: 0 <= i < |r.value| ==> r.value[i] as int == Base64.Atob(base64).value[i] as int
  {
    match Base64.Atob(base64)
    case None => None
    case Some(binary) => Some(CharCodes(binary))
  }

  /** `base64ToBuffer`: decodes with `atob`, then fills a `Uint8Array` of the
      decoded string's length with its character codes. */
  method Base64ToBuffer(base64: string) returns (r: Option<Bytes>)
    ensures r == DecodeBuffer(base64)
  {
    var decoded := Base64.Atob(base64);
    if decoded.None? {
      return None;
    }
    var bytes := CharCodeArray(decoded.value);
    r := Some(bytes[..]);
  }

  /** The `Uint8Array` filled with `charCodeAt(i)` at every index `i`. */
  method CharCodeArray(binaryString: string) returns (bytes: array<uint8>)
    requires IsLatin1(binaryString)
    ensures fresh(bytes) && bytes[..] == CharCodes(binaryString)
  {
    bytes := new uint8[|binaryString|];
    for i := 0 to |binaryString|
      invariant forall k :: 0 <= k < i ==> bytes[k] as int == binaryString[k] as int
    {
      bytes[i] := (binaryString[i] as int) as uint8;
    }
    assert bytes[..] == CharCodes(binaryString);
  }

  /** Every byte string survives the codec: `base64ToBuffer(bufferToBase64(b)) == b`,
      including the empty string and every byte value. */
  lemma BufferRoundTrip(b: Bytes)
    ensures DecodeBuffer(Base64.Encode(b)) == Some(b)
  {
    Base64.AtobEncode(b);
    CharCodesOfLatin1(b);
  }

  /** An encoding holds only alphabet characters and '='. */
  lemma EncodingHasNoQuote(b: Bytes)
    ensures '"' !in Base64.Encode(b)
  {
    var e, p := Base64.EncodeUnpadded(b), Base64.Padding(|b|);
    assert Base64.Encode(b) == e + p;
    assert forall i :: 0 <= i < |e| ==> e[i] != '"';
  }

  // ---------------------------------------------------------------------
  // Key pairs and messages

  /** `generateKeyPair`: a failure of generation or export becomes one error. */
  function GenerateKeyPair(wc: WebCrypto, randomness: Bytes): (r: Result<KeyPair, string>)
    ensures r.Failure? ==> r.error == KeyGenerationFailed
    ensures r.Success? <==> wc.generateRsaKeyPair(OaepParams, randomness).Some?
    ensures GeneratesValidPairs(wc) && r.Success? ==> KeyPairValid(wc, r.value)
  {
    match wc.generateRsaKeyPair(OaepParams, randomness)
    case None => Failure(KeyGenerationFailed)
    case Some(kp) => Success(kp)
  }

  /** `encryptWithPublicKey`: imports the recipient's JWK, encrypts the
      UTF-8 bytes of `data` with RSA-OAEP, and returns them in base64. A
      failure of import or encryption becomes one generic error. */
  function EncryptWithPublicKey(wc: WebCrypto, data: string, publicKeyJwk: string, seed: Bytes): (r: Result<string, string>)
    ensures r.Failure? ==> r.error == EncryptFailed
    ensures r.Success? ==> '"' !in r.value
    ensures r.Success? <==>
              wc.importPublicKey(publicKeyJwk, OaepParams).Some?
              && wc.rsaOaepEncrypt(wc.importPublicKey(publicKeyJwk, OaepParams).value, seed, wc.encodeText(data)).Some?
    ensures r.Success? ==>
              r.value == Base64.Encode(wc.rsaOaepEncrypt(wc.importPublicKey(publicKeyJwk, OaepParams).value,
                                                         seed, wc.encodeText(data)).value)
  {
    match wc.importPublicKey(publicKeyJwk, OaepParams)
    case None => Failure(EncryptFailed)
    case Some(key) =>
      match wc.rsaOaepEncrypt(key, seed, wc.encodeText(data))
      case None => Failure(EncryptFailed)
      case Some(encrypted) =>
        EncodingHasNoQuote(encrypted);
        Success(Base64.Encode(encrypted))
  }

  /** `decryptWithPrivateKey`: imports the private JWK, decodes the base64
      text, decrypts with RSA-OAEP and decodes UTF-8. A failure at any step
      (import, malformed base64, decryption) becomes one generic error. */
  function DecryptWithPrivateKey(wc: WebCrypto, encryptedData: string, privateKeyJwk: string): (r: Result<string, string>)
    ensures r.Failure? ==> r.error == DecryptFailed
    ensures DecodeBuffer(encryptedData).None? ==> r == Failure(DecryptFailed)
    ensures wc.importPrivateKey(privateKeyJwk, OaepParams).None? ==> r == Failure(DecryptFailed)
    ensures r.Success? <==>
              wc.importPrivateKey(privateKeyJwk, OaepParams).Some? && DecodeBuffer(encryptedData).Some?
              && wc.rsaOaepDecrypt(wc.importPrivateKey(privateKeyJwk, OaepParams).value, DecodeBuffer(encryptedData).value).Some?
    ensures r.Success? ==>
              r.value == wc.decodeText(wc.rsaOaepDecrypt(wc.importPrivateKey(privateKeyJwk, OaepParams).value,
                                                         DecodeBuffer(encryptedData).value).value)
  {
    match wc.importPrivateKey(privateKeyJwk, OaepParams)
    case None => Failure(DecryptFailed)
    case Some(key) =>
      match DecodeBuffer(encryptedData)
      case None => Failure(DecryptFailed)
      case Some(encrypted) =>
        match wc.rsaOaepDecrypt(key, encrypted)
        case None => Failure(DecryptFailed)
        case Some(decrypted) => Success(wc.decodeText(decrypted))
  }

  /** With a valid key pair, encryption fails only when RSA-OAEP refuses the
      message, and decrypting what it produced with the private half gives
      the message back. */
  lemma MessageRoundTrip(wc: WebCrypto, kp: KeyPair, message: string, seed: Bytes)
    requires KeyPairValid(wc, kp) && TextRoundTrip(wc)
    ensures var pub := wc.importPublicKey(kp.publicKey, OaepParams).value;
      (EncryptWithPublicKey(wc, message, kp.publicKey, seed).Success? <==>
       wc.rsaOaepEncrypt(pub, seed, wc.encodeText(message)).Some?)
    ensures var sent := EncryptWithPublicKey(wc, message, kp.publicKey, seed);
      sent.Success? ==> DecryptWithPrivateKey(wc, sent.value, kp.privateKey) == Success(message)
  {
    var pub := wc.importPublicKey(kp.publicKey, OaepParams).value;
    var priv := wc.importPrivateKey(kp.privateKey, OaepParams).value;
    var m := wc.encodeText(message);
    var encrypted := wc.rsaOaepEncrypt(pub, seed, m);
    if encrypted.Some? {
      BufferRoundTrip(encrypted.value);
      assert wc.rsaOaepDecrypt(priv, encrypted.value) == Some(m);
    }
  }

  // ---------------------------------------------------------------------
  // The private-key envelope

  /** The object `storePrivateKey` serialises: three base64 texts. */
  datatype StorageObject = StorageObject(salt: string, iv: string, encryptedPrivateKey: string)

  /** The pieces of the object's JSON text between its double quotes. */
  function JsonPieces(o: StorageObject): seq<string> {
    ["{", "salt", ":", o.salt, ",", "iv", ":", o.iv, ",", "encryptedPrivateKey", ":", o.encryptedPrivateKey, "}"]
  }

  /** `JSON.stringify` of the object, for field values that need no escaping:
      {"salt":"…","iv":"…","encryptedPrivateKey":"…"} */
  function StorageObjectJson(o: StorageObject): string {
    Join(JsonPieces(o), '"')
  }

  /** `JSON.parse` of a stored envelope followed by reading its three fields,
      for the layout `StorageObjectJson` writes; any other text is treated as
      malformed. */
  function ParseStorageObject(text: string): Option<StorageObject> {
    var p := Split(text, '"');
    if |p| == 13 && p[0] == "{" && p[1] == "salt" && p[2] == ":" && p[4] == ","
       && p[5] == "iv" && p[6] == ":" && p[8] == "," && p[9] == "encryptedPrivateKey"
       && p[10] == ":" && p[12] == "}"
    then Some(StorageObject(p[3], p[7], p[11]))
    else None
  }

  /** Parsing reads back what serialising wrote when no field holds a double quote. */
  lemma StorageObjectRoundTrip(o: StorageObject)
    requires '"' !in o.salt && '"' !in o.iv && '"' !in o.encryptedPrivateKey
    ensures ParseStorageObject(StorageObjectJson(o)) == Some(o)
  {
    SplitOfJson(o);
  }

  lemma SplitOfJson(o: StorageObject)
    requires '"' !in o.salt && '"' !in o.iv && '"' !in o.encryptedPrivateKey
    ensures Split(StorageObjectJson(o), '"') == JsonPieces(o)
  {
    var pieces := JsonPieces(o);
    forall k | 0 <= k < |pieces| ensures '"' !in pieces[k] {
    }
    SplitJoin(pieces, '"');
  }

  /** The AES key both `storePrivateKey` and `retrievePrivateKey` derive from
      the password's UTF-8 bytes and the salt. */
  function DeriveEnvelopeKey(wc: WebCrypto, password: string, salt: Bytes): Bytes {
    wc.deriveKey(wc.encodeText(password), salt, EnvelopeKdf)
  }

  /** The text `storePrivateKey` stores for a given salt and IV. */
  function SealedEnvelope(wc: WebCrypto, privateKey: string, password: string, salt: Bytes, iv: Bytes): string {
    var encrypted := wc.aesGcmEncrypt(DeriveEnvelopeKey(wc, password, salt), iv, wc.encodeText(privateKey));
    StorageObjectJson(StorageObject(Base64.Encode(salt), Base64.Encode(iv), Base64.Encode(encrypted)))
  }

  /** `storePrivateKey`: draws a fresh 16-byte salt and then a fresh 12-byte IV,
      derives the AES key, encrypts the private key's UTF-8 bytes, and writes
      the one entry `securePrivateKey`, replacing any earlier one wholesale. */
  method StorePrivateKey(wc: WebCrypto, local: Storage, random: RandomSource, privateKey: string, password: string)
    modifies local, random
    ensures random.position == old(random.position) + SaltLength + IvLength
    ensures local.items == old(local.items)[EnvelopeKey := SealedEnvelope(wc, privateKey, password,
      Drawn(random.stream, old(random.position), SaltLength),
      Drawn(random.stream, old(random.position) + SaltLength, IvLength))]
  {
    var salt := random.GetRandomValues(SaltLength);
    var aesKey := DeriveEnvelopeKey(wc, password, salt);
    var iv := random.GetRandomValues(IvLength);
    var encryptedData := wc.aesGcmEncrypt(aesKey, iv, wc.encodeText(privateKey));
    var saltText := BufferToBase64(salt);
    var ivText := BufferToBase64(iv);
    var encryptedText := BufferToBase64(encryptedData);
    local.SetItem(EnvelopeKey, StorageObjectJson(StorageObject(saltText, ivText, encryptedText)));
  }

  /** `retrievePrivateKey` over the contents of `localStorage`: `None` (null)
      when the entry is absent or empty, malformed, not base64, or fails
      authentication; it never throws. */
  function RetrievePrivateKey(wc: WebCrypto, local: map<string, string>, password: string): (r: Option<string>)
    ensures EnvelopeKey !in local ==> r == None
    ensures r.Some? ==> ParseStorageObject(local[EnvelopeKey]).Some?
  {
    if EnvelopeKey !in local || local[EnvelopeKey] == "" then None
    else
      match ParseStorageObject(local[EnvelopeKey])
      case None => None
      case Some(o) =>
        match (DecodeBuffer(o.salt), DecodeBuffer(o.iv), DecodeBuffer(o.encryptedPrivateKey))
        case (Some(salt), Some(iv), Some(encrypted)) =>
          (match wc.aesGcmDecrypt(DeriveEnvelopeKey(wc, password, salt), iv, encrypted)
           case None => None
           case Some(decrypted) => Some(wc.decodeText(decrypted)))
        case _ => None
  }

  lemma SealedEnvelopeParses(wc: WebCrypto, privateKey: string, password: string, salt: Bytes, iv: Bytes)
    ensures var encrypted := wc.aesGcmEncrypt(DeriveEnvelopeKey(wc, password, salt), iv, wc.encodeText(privateKey));
      ParseStorageObject(SealedEnvelope(wc, privateKey, password, salt, iv))
        == Some(StorageObject(Base64.Encode(salt), Base64.Encode(iv), Base64.Encode(encrypted)))
  {
    var encrypted := wc.aesGcmEncrypt(DeriveEnvelopeKey(wc, password, salt), iv, wc.encodeText(privateKey));
    EncodingHasNoQuote(salt);
    EncodingHasNoQuote(iv);
    EncodingHasNoQuote(encrypted);
    StorageObjectRoundTrip(StorageObject(Base64.Encode(salt), Base64.Encode(iv), Base64.Encode(encrypted)));
  }

  /** Store then retrieve with the same password returns the stored private
      key, whatever else `localStorage` holds. */
  lemma StoreThenRetrieve(wc: WebCrypto, local: map<string, string>, privateKey: string, password: string, salt: Bytes, iv: Bytes)
    requires TextRoundTrip(wc) && AeadCorrect(wc)
    ensures RetrievePrivateKey(wc, local[EnvelopeKey := SealedEnvelope(wc, privateKey, password, salt, iv)], password)
      == Some(privateKey)
  {
    var key := DeriveEnvelopeKey(wc, password, salt);
    var encrypted := wc.aesGcmEncrypt(key, iv, wc.encodeText(privateKey));
    SealedEnvelopeParses(wc, privateKey, password, salt, iv);
    BufferRoundTrip(salt);
    BufferRoundTrip(iv);
    BufferRoundTrip(encrypted);
    assert wc.aesGcmDecrypt(key, iv, encrypted) == Some(wc.encodeText(privateKey));
  }

  /** A different password yields null, not an exception. */
  lemma RetrieveWithWrongPassword(wc: WebCrypto, local: map<string, string>, privateKey: string, password: string,
                                  other: string, salt: Bytes, iv: Bytes)
    requires TextRoundTrip(wc) && KdfCollisionFree(wc) && AeadKeyBinding(wc)
    requires other != password
    ensures RetrievePrivateKey(wc, local[EnvelopeKey := SealedEnvelope(wc, privateKey, password, salt, iv)], other) == None
  {
    var key := DeriveEnvelopeKey(wc, password, salt);
    var otherKey := DeriveEnvelopeKey(wc, other, salt);
    var encrypted := wc.aesGcmEncrypt(key, iv, wc.encodeText(privateKey));
    SealedEnvelopeParses(wc, privateKey, password, salt, iv);
    BufferRoundTrip(salt);
    BufferRoundTrip(iv);
    BufferRoundTrip(encrypted);
    assert wc.encodeText(other) != wc.encodeText(password) by {
      assert wc.decodeText(wc.encodeText(other)) == other;
      assert wc.decodeText(wc.encodeText(password)) == password;
    }
    assert otherKey != key;
    assert wc.aesGcmDecrypt(otherKey, iv, encrypted) == None;
  }

  /** A stored ciphertext that is not the encryption of anything under the
      password's key (a tampered or foreign record) yields null. */
  lemma RetrieveRejectsForgery(wc: WebCrypto, local: map<string, string>, password: string,
                               o: StorageObject, salt: Bytes, iv: Bytes, encrypted: Bytes)
    requires AeadIntegrity(wc)
    requires EnvelopeKey in local && ParseStorageObject(local[EnvelopeKey]) == Some(o)
    requires DecodeBuffer(o.salt) == Some(salt) && DecodeBuffer(o.iv) == Some(iv)
    requires DecodeBuffer(o.encryptedPrivateKey) == Some(encrypted)
    requires forall m :: wc.aesGcmEncrypt(DeriveEnvelopeKey(wc, password, salt), iv, m) != encrypted
    ensures RetrievePrivateKey(wc, local, password) == None
  {
  }

  /** A record whose fields are not all valid base64 yields null. */
  lemma RetrieveRejectsMalformed(wc: WebCrypto, local: map<string, string>, password: string, o: StorageObject)
    requires EnvelopeKey in local && ParseStorageObject(local[EnvelopeKey]) == Some(o)
    requires DecodeBuffer(o.salt).None? || DecodeBuffer(o.iv).None? || DecodeBuffer(o.encryptedPrivateKey).None?
    ensures RetrievePrivateKey(wc, local, password) == None
  {
  }
}
