/**
  Choice of handler from the `BKKRILL_ENCRYPT_HANDLER` setting.

  The setting is `None` when the host framework or the setting itself is
  missing. In that case, and for every value other than the exact name of the
  national handler, the standard handler is chosen. Building the national
  handler looks its cipher up in a registry, and that lookup may fail with an
  import or attribute error; the selection then also falls back to the
  standard handler.
 */
module Selector {
  import opened Wrappers
  import opened HeaderCodec
  import opened Handler

  /** The one setting value that selects the national scheme. */
  const NationHandlerName: string := "NationEncryptHandler"

  /** The scheme the setting value asks for. */
  function SelectScheme(config: Option<string>): (s: Scheme)
    ensures s == National <==> config.Some? && config.value == NationHandlerName
  {
    match config
    case None => Standard
    case Some(name) => if name == NationHandlerName then National else Standard
  }

  /**
    Builds the handler for a setting value. `registry` is the cipher the
    national handler's constructor obtains, or `None` when that lookup raises an
    import or attribute error. The national handler is built only when the
    setting asks for it and the lookup succeeds; otherwise the standard handler
    with the Fernet cipher is returned.
   */
  function GetEncryptHandler(config: Option<string>, fernet: Cipher, registry: Option<Cipher>): (h: EncryptHandler)
    ensures h.scheme == National <==> SelectScheme(config) == National && registry.Some?
    ensures h.scheme == National ==> registry.Some? && h.cipher == registry.value
    ensures h.scheme == Standard ==> h.cipher == fernet
  {
    if SelectScheme(config) == National then
      match registry
      case Some(c) => EncryptHandler(National, c)
      case None => EncryptHandler(Standard, fernet)
    else
      EncryptHandler(Standard, fernet)
  }

  /** The rows of the decision table the tests exercise, plus the missing setting. */
  lemma SelectorDecisionTable(v: string)
    ensures SelectScheme(Some("NationEncryptHandler")) == National
    ensures SelectScheme(Some("")) == Standard
    ensures SelectScheme(None) == Standard
    ensures v != "NationEncryptHandler" ==> SelectScheme(Some(v)) == Standard
  {
  }

  /**
    A failed registry lookup never surfaces: even when the setting names the
    national handler, the standard handler with the Fernet cipher comes back.
   */
  lemma RegistryFailureFallsBack(config: Option<string>, fernet: Cipher)
    ensures GetEncryptHandler(config, fernet, None) == EncryptHandler(Standard, fernet)
  {
  }
}
