/**
  The scheme-identifying prefix carried by every string `encrypt` produces.

  Each encryption scheme owns one constant header. `AddHeader` prepends it,
  `ContainHeader` is a prefix test, and `StripHeader` removes the header when it
  is present and otherwise leaves the text alone, so that header-less legacy
  ciphertexts are still accepted.
 */
module HeaderCodec {

  /** The two interchangeable schemes: the standard cipher and the national one. */
  datatype Scheme = Standard | National

  /** The constant header of each scheme. */
  function Header(s: Scheme): (h: string)
    ensures |h| > 0
    ensures h[|h| - 1] == '$'
  {
    match s
    case Standard => "bkcrypt$"
    case National => "nationcrypto$"
  }

  /**
    True when `text` starts with the header of scheme `s`: the text is at least
    as long as the header and agrees with it at every header position.
   */
  function ContainHeader(s: Scheme, text: string): (b: bool)
    ensures b <==> |Header(s)| <= |text| && forall i :: 0 <= i < |Header(s)| ==> text[i] == Header(s)[i]
  {
    Header(s) <= text
  }

  /** Prepends the header of scheme `s` to `text`. */
  function AddHeader(s: Scheme, text: string): (r: string)
    ensures |r| == |Header(s)| + |text|
    ensures r[..|Header(s)|] == Header(s)
    ensures r[|Header(s)|..] == text
    ensures ContainHeader(s, r)
  {
    Header(s) + text
  }

  /**
    Removes the header of scheme `s` from `text` when it is there; any other
    text, including one carrying a different scheme's header, is returned as is.
   */
  function StripHeader(s: Scheme, text: string): (r: string)
    ensures ContainHeader(s, text) ==> |r| == |text| - |Header(s)| && Header(s) + r == text
    ensures !ContainHeader(s, text) ==> r == text
  {
    if !ContainHeader(s, text) then text else text[|Header(s)|..]
  }

  /**
    A reference implementation of the prefix test that scans the text one
    character at a time, as a string's `startswith` does. The facade uses
    `ContainHeader`; this method shows that a left-to-right scan that stops at
    the first mismatch computes the same answer on every input.
   */
  method ContainHeaderScan(s: Scheme, text: string) returns (b: bool)
    ensures b == ContainHeader(s, text)
  {
    var h := Header(s);
    if |text| < |h| {
      return false;
    }
    var k := 0;
    while k < |h|
      invariant 0 <= k <= |h|
      invariant forall i :: 0 <= i < k ==> text[i] == h[i]
    {
      if text[k] != h[k] {
        return false;
      }
      k := k + 1;
    }
    return true;
  }

  /** Stripping a freshly added header gives back the original text, for every text. */
  lemma StripAddRoundTrip(s: Scheme, t: string)
    ensures StripHeader(s, AddHeader(s, t)) == t
  {
  }

  /** Adding the header back to a stripped, header-carrying text restores it. */
  lemma AddStripRoundTrip(s: Scheme, t: string)
    requires ContainHeader(s, t)
    ensures AddHeader(s, StripHeader(s, t)) == t
    ensures StripHeader(s, t) == t[|Header(s)|..]
  {
  }

  /**
    `StripHeader` leaves a text unchanged exactly when the text lacks the
    header: legacy and foreign strings pass through, and a headed string always
    gets strictly shorter.
   */
  lemma StripUnchangedIff(s: Scheme, t: string)
    ensures StripHeader(s, t) == t <==> !ContainHeader(s, t)
  {
  }

  /**
    The two headers are prefix-free: neither is a prefix of the other, so no
    text carries both, and the scheme of a headed text is determined.
   */
  lemma HeadersPrefixFree(t: string)
    ensures !(Header(Standard) <= Header(National))
    ensures !(Header(National) <= Header(Standard))
    ensures !(ContainHeader(Standard, t) && ContainHeader(National, t))
  {
  }

  /** Adding one scheme's header never makes a text carry the other scheme's header. */
  lemma ForeignHeaderNotRecognised(a: Scheme, b: Scheme, p: string)
    requires a != b
    ensures !ContainHeader(b, AddHeader(a, p))
    ensures StripHeader(b, AddHeader(a, p)) == AddHeader(a, p)
  {
  }
}
