/** The two encryption layers of src/utils/encryption.ts: the client passphrase
    layer (`encryptData` / `decryptData`) and the server secret layer
    (`serverEncrypt` / `serverDecrypt`). The AES cipher of the library and
    `JSON.parse` / `JSON.stringify` are parameters, constrained only by the laws
    below. */
module Encryption {
  import opened Wrappers

  /** A symmetric cipher keyed by a passphrase or secret. `decrypt` is `None`
      when the library throws (the decrypted bytes are not UTF-8) and otherwise
      the decrypted text, which is empty for many wrong keys. */
  datatype Cipher = Cipher(encrypt: (string, string) -> string, decrypt: (string, string) -> Option<string>)

  /** What the model assumes of the cipher: decrypting with the key that
      encrypted gives back the text, and every ciphertext is non-empty text. */
  ghost predicate Lawful(c: Cipher)
  {
    forall k, s :: c.decrypt(k, c.encrypt(k, s)) == Some(s) && c.encrypt(k, s) != []
  }

  /** `JSON.parse` (partial: `None` where it throws) and `JSON.stringify` for
      values of type `J`. */
  datatype JsonCodec<!J> = JsonCodec(parse: string -> Option<J>, stringify: J -> string)

  /** Serialised values parse back to themselves and are never empty text. */
  ghost predicate JsonLawful<J(!new)>(j: JsonCodec<J>)
  {
    forall v :: j.parse(j.stringify(v)) == Some(v) && j.stringify(v) != []
  }

  /** The `data` argument of `encryptData`: a string or any other value. */
  datatype Data<J> = Text(text: string) | Value(value: J)

  /** The result of `decryptData`: the parsed JSON value, or the raw text when
      it does not parse. */
  datatype Decoded<J> = Parsed(value: J) | Raw(text: string)

  /** The errors the two layers raise. `CipherFault` is the cipher library's own
      exception, which `serverDecrypt` does not catch. */
  datatype CodecError = DecryptionFailed | ConfigMissing | ServerDecryptionFailed | CipherFault

  function Message(e: CodecError): string
  {
    match e
    case DecryptionFailed => "Decryption failed - incorrect passphrase"
    case ConfigMissing => "Server encryption secret not configured"
    case ServerDecryptionFailed => "Server decryption failed"
    case CipherFault => "Malformed UTF-8 data"
  }

  /** Line 12: strings go through unchanged, anything else is `JSON.stringify`-ed. */
  function Serialize<J>(data: Data<J>, j: JsonCodec<J>): string
  {
    match data
    case Text(s) => s
    case Value(v) => j.stringify(v)
  }

  /** `encryptData(data, passphrase)`. */
  function EncryptData<J>(data: Data<J>, passphrase: string, c: Cipher, j: JsonCodec<J>): (r: string)
    ensures Lawful(c) ==> r != [] && c.decrypt(passphrase, r) == Some(Serialize(data, j))
  {
    c.encrypt(passphrase, Serialize(data, j))
  }

  /** `decryptData(encryptedData, passphrase)`: every failure is the one
      `DecryptionFailed`, a parse failure is never an error. */
  function DecryptData<J>(encrypted: string, passphrase: string, c: Cipher, j: JsonCodec<J>): (r: Result<Decoded<J>, CodecError>)
    ensures r.Err? ==> r.error == DecryptionFailed
    ensures r.Err? <==> c.decrypt(passphrase, encrypted) in {None, Some([])}
    ensures r.Ok? && r.value.Raw? ==>
      c.decrypt(passphrase, encrypted) == Some(r.value.text) && j.parse(r.value.text) == None
    ensures r.Ok? && r.value.Parsed? ==>
      exists t :: c.decrypt(passphrase, encrypted) == Some(t) && j.parse(t) == Some(r.value.value)
  {
    match c.decrypt(passphrase, encrypted)
    case None => Err(DecryptionFailed)
    case Some(text) =>
      if text == [] then Err(DecryptionFailed)
      else match j.parse(text)
        case Some(v) => Ok(Parsed(v))
        case None => Ok(Raw(text))
  }

  /** The envelope of a string holds that string unchanged; the envelope of any
      other value holds its JSON text. */
  lemma EnvelopeHolds<J>(data: Data<J>, passphrase: string, c: Cipher, j: JsonCodec<J>)
    requires Lawful(c)
    ensures data.Text? ==> c.decrypt(passphrase, EncryptData(data, passphrase, c, j)) == Some(data.text)
    ensures data.Value? ==> c.decrypt(passphrase, EncryptData(data, passphrase, c, j)) == Some(j.stringify(data.value))
  {
  }

  /** Round trip of a non-empty string: it comes back parsed when it is JSON
      text and raw otherwise. */
  lemma TextRoundTrip<J>(s: string, passphrase: string, c: Cipher, j: JsonCodec<J>)
    requires Lawful(c) && s != []
    ensures DecryptData(EncryptData(Text(s), passphrase, c, j), passphrase, c, j)
      == if j.parse(s).Some? then Ok(Parsed(j.parse(s).value)) else Ok(Raw(s))
  {
    assert c.decrypt(passphrase, c.encrypt(passphrase, s)) == Some(s);
  }

  /** Round trip of a non-string value: `JSON.parse(JSON.stringify(v))`. */
  lemma ValueRoundTrip<J(!new)>(v: J, passphrase: string, c: Cipher, j: JsonCodec<J>)
    requires Lawful(c) && JsonLawful(j)
    ensures DecryptData(EncryptData(Value(v), passphrase, c, j), passphrase, c, j) == Ok(Parsed(v))
  {
    assert j.parse(j.stringify(v)) == Some(v) && j.stringify(v) != [];
    assert c.decrypt(passphrase, c.encrypt(passphrase, j.stringify(v))) == Some(j.stringify(v));
  }

  /** The empty string never comes back, even with the right passphrase: the
      empty decrypted text is read as a wrong passphrase. */
  lemma EmptyTextNeverOpens<J>(passphrase: string, c: Cipher, j: JsonCodec<J>)
    requires Lawful(c)
    ensures DecryptData(EncryptData(Text([]), passphrase, c, j), passphrase, c, j) == Err(DecryptionFailed)
  {
    assert c.decrypt(passphrase, c.encrypt(passphrase, [])) == Some([]);
  }

  /** `!serverSecret`: the secret is set and is not the empty string. */
  predicate Configured(secret: Option<string>)
  {
    secret.Some? && secret.value != []
  }

  /** `serverEncrypt(data)`: refuses to run without a secret. */
  function ServerEncrypt(data: string, secret: Option<string>, c: Cipher): (r: Result<string, CodecError>)
    ensures r.Err? <==> !Configured(secret)
    ensures r.Err? ==> r.error == ConfigMissing
    ensures r.Ok? ==> r.value == c.encrypt(secret.value, data)
  {
    if !Configured(secret) then Err(ConfigMissing) else Ok(c.encrypt(secret.value, data))
  }

  /** `serverDecrypt(encryptedData)`: returns the decrypted text as it is (no
      JSON parsing), and never the empty string. */
  function ServerDecrypt(encrypted: string, secret: Option<string>, c: Cipher): (r: Result<string, CodecError>)
    ensures !Configured(secret) ==> r == Err(ConfigMissing)
    ensures r.Ok? ==> r.value != [] && c.decrypt(secret.value, encrypted) == Some(r.value)
    ensures Configured(secret) && c.decrypt(secret.value, encrypted) == Some([]) ==> r == Err(ServerDecryptionFailed)
    ensures Configured(secret) && c.decrypt(secret.value, encrypted) == None ==> r == Err(CipherFault)
  {
    if !Configured(secret) then Err(ConfigMissing)
    else match c.decrypt(secret.value, encrypted)
      case None => Err(CipherFault)
      case Some(text) => if text == [] then Err(ServerDecryptionFailed) else Ok(text)
  }

  /** Server round trip under a fixed, configured secret; the empty text is
      the one exception. */
  lemma ServerRoundTrip(e: string, secret: Option<string>, c: Cipher)
    requires Lawful(c) && Configured(secret)
    ensures ServerEncrypt(e, secret, c).Ok?
    ensures e != [] ==> ServerDecrypt(ServerEncrypt(e, secret, c).value, secret, c) == Ok(e)
    ensures e == [] ==> ServerDecrypt(ServerEncrypt(e, secret, c).value, secret, c) == Err(ServerDecryptionFailed)
  {
    assert c.decrypt(secret.value, c.encrypt(secret.value, e)) == Some(e);
  }

  /** The server layer gives back a client envelope exactly: unwrapping a
      wrapped envelope and then opening it with the passphrase is the same as
      opening the envelope directly. */
  lemma TwoLayerRoundTrip<J>(data: Data<J>, passphrase: string, secret: Option<string>, c: Cipher, j: JsonCodec<J>)
    requires Lawful(c) && Configured(secret)
    ensures var envelope := EncryptData(data, passphrase, c, j);
      && ServerEncrypt(envelope, secret, c).Ok?
      && ServerDecrypt(ServerEncrypt(envelope, secret, c).value, secret, c) == Ok(envelope)
  {
    var envelope := EncryptData(data, passphrase, c, j);
    assert envelope != [];
    ServerRoundTrip(envelope, secret, c);
  }
}
