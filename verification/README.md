# blue-krill encryption facade, modelled in Dafny

This project models the string-level part of blue-krill's encryption facade
(`blue_krill/encrypt/handler.py`). A string produced by `encrypt` is
`<header><cipher output>`, unless the input already began with that header, in
which case it is returned as is. `decrypt` also accepts header-less legacy
strings. The header names the scheme: `bkcrypt$` for the standard scheme
(`EncryptHandler`, backed by Fernet) and `nationcrypto$` for the national
scheme (`NationEncryptHandler`, backed by a cipher from the bkcrypto registry).

- `HeaderCodec` (`header.dfy`) holds the `Scheme` datatype, each scheme's
  constant header, and `AddHeader` / `ContainHeader` / `StripHeader`. It also
  holds `ContainHeaderScan`, a reference implementation of the prefix test
  that scans one character at a time and is proved to agree with `ContainHeader`. The two `Header`
  classes of the source differ only in their constant, so one codec
  parameterised by the scheme models both.
- `Handler` (`handler.dfy`) holds the shared `encrypt` / `decrypt` logic of both
  handlers. The cipher is a parameter: a pair of functions whose decryption may
  fail with a `CipherError`.
- `Selector` (`selector.dfy`) models `get_encrypt_handler` as a pure choice from
  the `BKKRILL_ENCRYPT_HANDLER` setting. The setting is an `Option<string>`, and
  `None` stands for the `ImportError` / `AttributeError` path. The national
  handler's registry lookup is an `Option<Cipher>` too, because the same `try`
  also covers building the handler.
- `Wrappers` (`wrappers.dfy`) holds the `Option` and `Result` datatypes.

Two consequences of the code are worth knowing.
`Handler.HeadedPlaintextPassesThrough` shows that a secret that itself begins
with the handler's header (`bkcrypt$...` or `nationcrypto$...`) is stored
unencrypted, and that `decrypt` then hands only the part after the header to
the cipher. `Handler.HeadedPlaintextNotRecovered` shows that, for any cipher
whose decryption never lengthens its input (as holds for Fernet and the
registry ciphers), such a secret does not come back.
`Handler.ForeignCiphertextNotRecognised` shows that neither handler recognises
the other scheme's values: encrypting one wraps it again, and decrypting one
sends the whole string, foreign header included, to this handler's cipher.
Whether that cipher then rejects it (Fernet reports an invalid token) depends on
the cipher and is not proved here.

`strip_header` returns only the payload. `HeaderCodec.HeadersPrefixFree` shows
that at most one scheme's header can be present.

## Model

| member | source | states |
|---|---|---|
| HeaderCodec.Header | sdks/blue-krill/blue_krill/encrypt/handler.py:38 | each scheme's header is a non-empty constant ending in `$` (`bkcrypt$`, `nationcrypto$`; the national one is at line 75) |
| HeaderCodec.AddHeader | sdks/blue-krill/blue_krill/encrypt/handler.py:41-42 | the result is the scheme's header followed by the text: its first `|HEADER|` characters are the header, the rest is the text, and it always passes `contain_header` (same code at lines 78-79) |
| HeaderCodec.StripHeader | sdks/blue-krill/blue_krill/encrypt/handler.py:45-50 | on a headed text the result is the text minus the header, and header + result gives the text back; on any other text the result is the text unchanged (same code at lines 82-87) |
| HeaderCodec.ContainHeader | sdks/blue-krill/blue_krill/encrypt/handler.py:53-54 | the prefix test holds exactly when the text is at least as long as the header and agrees with it at every header position, texts shorter than the header included (same code at lines 90-91) |
| HeaderCodec.ContainHeaderScan | sdks/blue-krill/blue_krill/encrypt/handler.py:53-54 | a left-to-right scan that stops at the first mismatch, as `startswith` does, gives the same answer as `ContainHeader` on every input |
| HeaderCodec.StripAddRoundTrip | sdks/blue-krill/blue_krill/encrypt/handler.py:41-50 | stripping a freshly added header gives back the original text, for every text and both schemes |
| HeaderCodec.AddStripRoundTrip | sdks/blue-krill/blue_krill/encrypt/handler.py:50 | on a headed text, stripping yields exactly the suffix after the header, and adding the header back restores the text |
| HeaderCodec.StripUnchangedIff | sdks/blue-krill/blue_krill/encrypt/handler.py:46-50 | stripping leaves a text unchanged if and only if the text lacks the header, so legacy strings pass through and headed strings always get shorter |
| HeaderCodec.HeadersPrefixFree | sdks/blue-krill/blue_krill/encrypt/handler.py:38 | neither header is a prefix of the other (the national one is at line 75), so no string carries both |
| HeaderCodec.ForeignHeaderNotRecognised | sdks/blue-krill/blue_krill/encrypt/handler.py:82-91 | a text headed by one scheme does not carry the other scheme's header, and stripping with the other scheme leaves it unchanged |
| Handler.Encrypt | sdks/blue-krill/blue_krill/encrypt/handler.py:24-29 | the result always carries the handler's own header; already-headed input comes back unchanged; otherwise the part after the header is the cipher's output (national handler: lines 63-67) |
| Handler.Decrypt | sdks/blue-krill/blue_krill/encrypt/handler.py:31-35 | the cipher receives the text after the header when the handler's header is present and the whole text otherwise; its result, failure included, is returned unchanged (national handler: lines 69-72) |
| Handler.EncryptIdempotent | sdks/blue-krill/blue_krill/encrypt/handler.py:25-26 | encrypting twice equals encrypting once, for any cipher (national handler: lines 64-65) |
| Handler.EncryptDecryptRoundTrip | sdks/blue-krill/blue_krill/encrypt/handler.py:24-35 | if the cipher inverts itself on `s` and `s` does not start with the header, decrypting the encryption of `s` succeeds with `s` (national handler: lines 63-72) |
| Handler.HeadedPlaintextPassesThrough | sdks/blue-krill/blue_krill/encrypt/handler.py:24-35 | a plaintext already starting with the header is stored unencrypted, and decrypting it hands the part after the header to the cipher, so it is outside the round trip |
| Handler.HeadedPlaintextNotRecovered | sdks/blue-krill/blue_krill/encrypt/handler.py:24-35 | if the cipher's decryption never returns text longer than its input, a plaintext that starts with the header never round-trips: decrypting its encryption does not succeed with it (national handler: lines 63-72) |
| Handler.ForeignCiphertextNotRecognised | sdks/blue-krill/blue_krill/encrypt/handler.py:63-72 | a value headed by the other scheme is encrypted again as a whole, and decrypting it hands the whole string, foreign header included, to this handler's cipher |
| Handler.LegacyCiphertextPassesThrough | sdks/blue-krill/blue_krill/encrypt/handler.py:31-35 | a string without this handler's own header, whether legacy or foreign-headed, is handed to the cipher unchanged by `decrypt` |
| Selector.SelectScheme | sdks/blue-krill/blue_krill/encrypt/handler.py:96-106 | the national scheme is chosen if and only if the setting is present and equal to `NationEncryptHandler`; every other value, and a missing setting or framework, gives the standard scheme |
| Selector.GetEncryptHandler | sdks/blue-krill/blue_krill/encrypt/handler.py:96-106 | the national handler, with the registry's cipher, is built if and only if the setting selects it and the registry lookup succeeds (line 60 runs inside the `try`); in every other case the standard handler with the Fernet cipher comes back |
| Selector.RegistryFailureFallsBack | sdks/blue-krill/blue_krill/encrypt/handler.py:101-106 | when the registry lookup raises an import or attribute error, the standard handler is returned, whatever the setting says |
| Selector.SelectorDecisionTable | sdks/blue-krill/tests/test_encrypt.py:47-61 | `NationEncryptHandler` gives National, the empty string and a missing setting give Standard, and so does every other value |

## Left out

- The Fernet cipher and the bkcrypto `symmetric_cipher_manager` registry (handler.py lines 11-13, 22, 60). These are foreign cryptographic code. Each appears only as a `Cipher` value, and the round trip is proved under the hypothesis that the cipher inverts itself on the plaintext.
- Tamper and authentication-failure detection. This is a property of the cipher, not of this code. The model only shows that a cipher failure is passed back unchanged.
- `force_bytes` / `force_text` (handler.py lines 15, 28-29, 34-35). Text is `seq<char>`, and these conversions are taken as the identity.
- `get_default_secret_key` and key generation (handler.py lines 16, 20). These belong to external key provisioning.
- The mechanics of the Django settings import, the registry lookup and their exception handling. Only their outcomes are modelled, as `Option<string>` and `Option<Cipher>`.
- Selector.GetEncryptHandler: has no error outcome. In the source, an exception other than `ImportError` / `AttributeError` raised anywhere inside the `try` at lines 97-104 (the settings import and read at lines 98-100 as well as the handler constructors) propagates out of `get_encrypt_handler`, for example Fernet's `ValueError` for a malformed key (line 22). Such failures belong to the cipher library and key provisioning, which are not modelled.
- Nondeterministic encryption: `Cipher.enc` is a function, so two calls on the same text give the same output. Fernet draws a fresh IV and timestamp on every call, so `enc` stands for the output of one call. No lemma compares two separate encryptions of the same text.
- The `legacy_encrypt` / `legacy_decrypt` test vectors (test_encrypt.py lines 70-76). The legacy module is not part of this model, and the vectors depend on real cipher bytes.
- Header collisions: a cipher output that happens to begin with a header is not ruled out. No property here depends on the shape of the cipher's output.
