/**
  The encryption facade shared by the standard and the national handler.

  A handler owns one scheme and one cipher. The cipher itself (Fernet for the
  standard scheme, the configured registry cipher for the national one) is not
  modelled: it is a pair of functions, and decryption may fail with a cipher
  error, which the facade hands back unchanged.
 */
module Handler {
  import opened Wrappers
  import opened HeaderCodec

  /** Why the underlying cipher refused a ciphertext (bad token, failed authentication, ...). */
  datatype CipherError = CipherError(reason: string)

  /**
    The underlying cipher: text in, text out; decryption can fail. `enc` stands
    for the output of one particular call: a real cipher such as Fernet draws a
    fresh IV and timestamp each time, so two calls on the same text may differ.
   */
  datatype Cipher = Cipher(enc: string -> string, dec: string -> Result<string, CipherError>)

  /** An `EncryptHandler` (scheme Standard) or a `NationEncryptHandler` (scheme National). */
  datatype EncryptHandler = EncryptHandler(scheme: Scheme, cipher: Cipher)

  /**
    Encrypts `text`, unless it already carries this handler's header, in which
    case it is returned unchanged. Whatever the cipher produces, the result
    always carries the handler's header.
   */
  function Encrypt(h: EncryptHandler, text: string): (r: string)
    ensures ContainHeader(h.scheme, r)
    ensures ContainHeader(h.scheme, text) ==> r == text
    ensures !ContainHeader(h.scheme, text) ==> r[|Header(h.scheme)|..] == h.cipher.enc(text)
  {
    if ContainHeader(h.scheme, text) then text
    else AddHeader(h.scheme, h.cipher.enc(text))
  }

  /**
    Decrypts `encrypted`: the handler's own header is removed when present and
    the rest goes to the cipher; a header-less or foreign-headed string goes to
    the cipher whole. Cipher failures come back unchanged.
   */
  function Decrypt(h: EncryptHandler, encrypted: string): (r: Result<string, CipherError>)
    ensures ContainHeader(h.scheme, encrypted) ==> r == h.cipher.dec(encrypted[|Header(h.scheme)|..])
    ensures !ContainHeader(h.scheme, encrypted) ==> r == h.cipher.dec(encrypted)
  {
    h.cipher.dec(StripHeader(h.scheme, encrypted))
  }

  /** Encrypting twice is the same as encrypting once, whatever the cipher does. */
  lemma EncryptIdempotent(h: EncryptHandler, s: string)
    ensures Encrypt(h, Encrypt(h, s)) == Encrypt(h, s)
  {
  }

  /**
    Round trip: when the cipher inverts itself on `s` and `s` does not already
    start with the handler's header, decrypting the encryption of `s` gives `s`.
   */
  lemma EncryptDecryptRoundTrip(h: EncryptHandler, s: string)
    requires h.cipher.dec(h.cipher.enc(s)) == Success(s)
    requires !ContainHeader(h.scheme, s)
    ensures Decrypt(h, Encrypt(h, s)) == Success(s)
  {
  }

  /**
    A plaintext that already starts with the handler's header is not encrypted
    at all, and decrypting it asks the cipher to decrypt the text after the
    header: this is why such plaintexts are excluded from the round trip.
   */
  lemma HeadedPlaintextPassesThrough(h: EncryptHandler, s: string)
    requires ContainHeader(h.scheme, s)
    ensures Encrypt(h, s) == s
    ensures Decrypt(h, Encrypt(h, s)) == h.cipher.dec(s[|Header(h.scheme)|..])
  {
  }

  /**
    With a cipher whose decryption never returns something longer than its
    input (true of Fernet and of the registry ciphers, whose ciphertext is
    longer than the plaintext), a plaintext that starts with the handler's
    header does not survive the round trip: decryption sees only the shorter
    part after the header, so it cannot give the whole plaintext back.
   */
  lemma HeadedPlaintextNotRecovered(h: EncryptHandler, s: string)
    requires forall y :: h.cipher.dec(y).Success? ==> |h.cipher.dec(y).value| <= |y|
    requires ContainHeader(h.scheme, s)
    ensures Decrypt(h, Encrypt(h, s)) != Success(s)
  {
  }

  /**
    A value produced by the other scheme is not recognised: encrypting it
    encrypts the whole string again, and decrypting it sends the whole string,
    foreign header included, to this handler's cipher.
   */
  lemma ForeignCiphertextNotRecognised(h: EncryptHandler, other: Scheme, p: string)
    requires other != h.scheme
    ensures Encrypt(h, AddHeader(other, p)) == Header(h.scheme) + h.cipher.enc(Header(other) + p)
    ensures Decrypt(h, AddHeader(other, p)) == h.cipher.dec(Header(other) + p)
  {
  }

  /**
    A string without this handler's header, a header-less legacy string in
    particular, is decrypted by handing it to the cipher unchanged.
   */
  lemma LegacyCiphertextPassesThrough(h: EncryptHandler, t: string)
    requires !ContainHeader(h.scheme, t)
    ensures Decrypt(h, t) == h.cipher.dec(t)
  {
  }
}
