/**
 Envelope encryption of credentials: a random data key encrypts the secret, the master key
 wraps the data key, everything is stored as base64 text, and the data key buffer is wiped.
 AES-256-GCM is a parameter of which only "decryption inverts encryption" is assumed.
 */
module Secrets {
  import opened Text
  import opened Encoding

  const KEY_BYTES := 32

  datatype Sealed = Sealed(tag: seq<Byte>, data: seq<Byte>)

  datatype Gcm = Gcm(
    encrypt: (seq<Byte>, seq<Byte>, seq<Byte>) -> Sealed,
    decrypt: (seq<Byte>, seq<Byte>, Sealed) -> Option<seq<Byte>>)

  /** Section 7 of NIST SP 800-38D: authenticated decryption returns what was encrypted. */
  ghost predicate Inverts(g: Gcm) {
    forall key, iv, plain :: |key| == KEY_BYTES ==> g.decrypt(key, iv, g.encrypt(key, iv, plain)) == Some(plain)
  }

  datatype EncryptedSecret = EncryptedSecret(ciphertext: string, authTag: string, iv: string,
                                             dekWrapped: string, keyVersion: string)

  datatype Config = Config(masterKeyBase64: string, keyVersion: string)

  /** getKek: the decoded master key, or an error when it is not 32 bytes. */
  function Kek(c: Config): Option<seq<Byte>> {
    var key := FromBase64(c.masterKeyBase64);
    if |key| == KEY_BYTES then Some(key) else None
  }

  // -------------------------------------------------------------- wrap, unwrap

  function WrapDek(g: Gcm, kek: seq<Byte>, iv: seq<Byte>, dek: seq<Byte>): string {
    var box := g.encrypt(kek, iv, dek);
    Join([Base64(iv), Base64(box.tag), Base64(box.data)], ":")
  }

  /** The three parts, joined by colons. */
  lemma WrapText(g: Gcm, kek: seq<Byte>, iv: seq<Byte>, dek: seq<Byte>)
    ensures var box := g.encrypt(kek, iv, dek);
            WrapDek(g, kek, iv, dek) == Base64(iv) + ":" + (Base64(box.tag) + ":" + Base64(box.data))
  {
    var box := g.encrypt(kek, iv, dek);
    var parts := [Base64(iv), Base64(box.tag), Base64(box.data)];
    JoinThree(parts[0], parts[1], parts[2]);
  }

  lemma JoinThree(a: string, b: string, c: string)
    ensures Join([a, b, c], ":") == a + ":" + (b + ":" + c)
  {
    assert [a, b, c][1..] == [b, c] && [b, c][1..] == [c];
    assert Join([b, c], ":") == b + ":" + Join([c], ":");
  }

  function UnwrapDek(g: Gcm, kek: seq<Byte>, wrapped: string): Option<seq<Byte>> {
    var parts := Split(wrapped, ':');
    if |parts| < 3 then None  // Buffer.from(undefined) throws
    else g.decrypt(kek, FromBase64(parts[0]), Sealed(FromBase64(parts[1]), FromBase64(parts[2])))
  }

  lemma WrapRoundTrip(g: Gcm, kek: seq<Byte>, iv: seq<Byte>, dek: seq<Byte>)
    requires Inverts(g) && |kek| == KEY_BYTES
    ensures UnwrapDek(g, kek, WrapDek(g, kek, iv, dek)) == Some(dek)
  {
    var box := g.encrypt(kek, iv, dek);
    var parts := [Base64(iv), Base64(box.tag), Base64(box.data)];
    Base64HasNoColon(iv);
    Base64HasNoColon(box.tag);
    Base64HasNoColon(box.data);
    SplitJoin(parts, ':');
    Base64RoundTrip(iv);
    Base64RoundTrip(box.tag);
    Base64RoundTrip(box.data);
  }

  // ---------------------------------------------------------- encrypt, decrypt

  /** The stored record for a secret, as a function of the two nonces and the data key. */
  function Encrypted(g: Gcm, c: Config, kek: seq<Byte>, dek: seq<Byte>, iv: seq<Byte>, wrapIv: seq<Byte>, secret: string)
    : EncryptedSecret
  {
    var box := g.encrypt(dek, iv, Utf8(secret));
    EncryptedSecret(Base64(box.data), Base64(box.tag), Base64(iv), WrapDek(g, kek, wrapIv, dek), c.keyVersion)
  }

  /** What decryptSecret returns for a record, once the master key is known. */
  function Decrypted(g: Gcm, kek: seq<Byte>, enc: EncryptedSecret): Option<string> {
    match UnwrapDek(g, kek, enc.dekWrapped)
    case None => None
    case Some(dek) =>
      match g.decrypt(dek, FromBase64(enc.iv), Sealed(FromBase64(enc.authTag), FromBase64(enc.ciphertext)))
      case None => None
      case Some(plain) => FromUtf8(plain)
  }

  /** Decrypting an encrypted secret returns it, for every text, key and pair of nonces. */
  lemma SecretRoundTrip(g: Gcm, c: Config, kek: seq<Byte>, dek: seq<Byte>, iv: seq<Byte>, wrapIv: seq<Byte>, secret: string)
    requires Inverts(g) && |kek| == KEY_BYTES && |dek| == KEY_BYTES
    ensures Decrypted(g, kek, Encrypted(g, c, kek, dek, iv, wrapIv, secret)) == Some(secret)
  {
    var box := g.encrypt(dek, iv, Utf8(secret));
    WrapRoundTrip(g, kek, wrapIv, dek);
    Base64RoundTrip(iv);
    Base64RoundTrip(box.tag);
    Base64RoundTrip(box.data);
    Utf8RoundTrip(secret);
  }

  ghost predicate Wiped(buffer: array<Byte>)
    reads buffer
  {
    forall i :: 0 <= i < buffer.Length ==> buffer[i] == 0
  }

  method Wipe(buffer: array<Byte>)
    modifies buffer
    ensures Wiped(buffer)
  {
    for i := 0 to buffer.Length
      invariant forall j :: 0 <= j < i ==> buffer[j] == 0
    {
      buffer[i] := 0;
    }
  }

  /**
   encryptSecret on a fresh random data key. A bad master key throws before the wipe, so the
   buffer keeps the key; otherwise it is zero on return and the record keeps no link to it.
   */
  method EncryptSecret(g: Gcm, c: Config, dek: array<Byte>, iv: seq<Byte>, wrapIv: seq<Byte>, secret: string)
    returns (r: Result<EncryptedSecret>)
    requires dek.Length == KEY_BYTES
    modifies dek
    ensures r.Ok? <==> Kek(c).Some?
    ensures r.Ok? ==> Wiped(dek) && r.value == Encrypted(g, c, Kek(c).value, old(dek[..]), iv, wrapIv, secret)
    ensures r.Err? ==> dek[..] == old(dek[..])
    ensures r.Ok? <==> |FromBase64(c.masterKeyBase64)| == 32
    ensures r.Ok? ==>
              var box, wrap := g.encrypt(old(dek[..]), iv, Utf8(secret)),
                               g.encrypt(FromBase64(c.masterKeyBase64), wrapIv, old(dek[..]));
              && r.value.ciphertext == Base64(box.data) && r.value.authTag == Base64(box.tag)
              && r.value.iv == Base64(iv)
              && r.value.dekWrapped == Base64(wrapIv) + ":" + (Base64(wrap.tag) + ":" + Base64(wrap.data))
              && r.value.keyVersion == c.keyVersion
  {
    var box := g.encrypt(dek[..], iv, Utf8(secret));
    var kek := Kek(c);
    if kek.None? { return Err; }
    WrapText(g, kek.value, wrapIv, dek[..]);
    var wrapped := WrapDek(g, kek.value, wrapIv, dek[..]);
    r := Ok(EncryptedSecret(Base64(box.data), Base64(box.tag), Base64(iv), wrapped, c.keyVersion));
    Wipe(dek);
  }

  /**
   decryptSecret. `dek` is the buffer that held the unwrapped key, null when unwrapping failed:
   it is zero on every exit, failures of the second decryption included.
   */
  method DecryptSecret(g: Gcm, c: Config, enc: EncryptedSecret) returns (r: Result<string>, dek: array?<Byte>)
    ensures r == (if Kek(c).Some? && Decrypted(g, Kek(c).value, enc).Some?
                  then Ok(Decrypted(g, Kek(c).value, enc).value) else Err)
    ensures dek != null <==>
              var parts := Split(enc.dekWrapped, ':');
              && |FromBase64(c.masterKeyBase64)| == 32 && |parts| >= 3
              && g.decrypt(FromBase64(c.masterKeyBase64), FromBase64(parts[0]),
                           Sealed(FromBase64(parts[1]), FromBase64(parts[2]))).Some?
    ensures dek != null ==> fresh(dek) && Wiped(dek)
    ensures r.Ok? ==>
              var parts := Split(enc.dekWrapped, ':');
              && |parts| >= 3
              && var key := g.decrypt(FromBase64(c.masterKeyBase64), FromBase64(parts[0]),
                                      Sealed(FromBase64(parts[1]), FromBase64(parts[2])));
              && key.Some?
              && g.decrypt(key.value, FromBase64(enc.iv), Sealed(FromBase64(enc.authTag), FromBase64(enc.ciphertext)))
                 == Some(Utf8(r.value))
  {
    dek := null;
    var kek := Kek(c);
    if kek.None? { return Err, null; }
    var key := UnwrapDek(g, kek.value, enc.dekWrapped);
    if key.None? { return Err, null; }
    dek := new Byte[|key.value|](i requires 0 <= i < |key.value| => key.value[i]);
    assert dek[..] == key.value;
    var plain := g.decrypt(dek[..], FromBase64(enc.iv), Sealed(FromBase64(enc.authTag), FromBase64(enc.ciphertext)));
    r := Err;
    if plain.Some? {
      var text := FromUtf8(plain.value);
      if text.Some? {
        r := Ok(text.value);
        FromUtf8Exact(plain.value, text.value);
      }
    }
    Wipe(dek);
  }

  /** Storing a credential and reading it back gives the password, with both key buffers wiped. */
  method StoreAndRead(g: Gcm, c: Config, dek: array<Byte>, iv: seq<Byte>, wrapIv: seq<Byte>, password: string)
    returns (read: Result<string>)
    requires Inverts(g) && Kek(c).Some? && dek.Length == KEY_BYTES
    modifies dek
    ensures read == Ok(password) && Wiped(dek)
  {
    ghost var key := dek[..];
    var stored := EncryptSecret(g, c, dek, iv, wrapIv, password);
    SecretRoundTrip(g, c, Kek(c).value, key, iv, wrapIv, password);
    var buffer;
    read, buffer := DecryptSecret(g, c, stored.value);
  }
}
