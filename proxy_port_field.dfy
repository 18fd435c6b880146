/** ProxyPortFieldType: the text field for the proxy port. Its formatter
    accepts the regular expression ^[0-9]{1,4}$; an unset port reads as
    "0"; saving writes the field text as it is. */
module ProxyPortField {
  import opened Common
  import opened Settings

  const ProxyPortKey := "proxy.port"
  const DefaultPort := "0"

  /** ^[0-9]{1,4}$: one to four ASCII digits and nothing else. */
  predicate Accepted(text: string) {
    1 <= |text| <= 4 && AllDigits(text)
  }

  function Pow10(n: nat): (r: nat)
    ensures r >= 1
  {
    if n == 0 then 1 else 10 * Pow10(n - 1)
  }

  /** n digits never exceed 10^n - 1. */
  lemma {:induction false} DigitsBound(s: string)
    requires AllDigits(s)
    ensures DigitsToNat(s) < Pow10(|s|)
  {
    if s != [] {
      DigitsBound(s[..|s| - 1]);
    }
  }

  /** An accepted port is unsigned, non-empty and at most 9999. */
  lemma AcceptedPortRange(text: string)
    requires Accepted(text)
    ensures text != [] && text[0] != '-' && text[0] != '+'
    ensures ParseInt(text) == Some(DigitsToNat(text))
    ensures 0 <= DigitsToNat(text) <= 9999
  {
    DigitsBound(text);
    assert Pow10(|text|) <= Pow10(4);
  }

  /** The default port is itself accepted, and means port 0. */
  lemma DefaultAccepted()
    ensures Accepted(DefaultPort) && ParseInt(DefaultPort) == Some(0)
  {
  }

  /** getPropertyValue: the stored text, or "0" when the port is unset. */
  function GetPropertyValue(store: Store): (r: string)
    ensures ProxyPortKey in store ==> r == store[ProxyPortKey]
    ensures ProxyPortKey !in store ==> r == DefaultPort
  {
    GetString(store, ProxyPortKey).GetOr(DefaultPort)
  }

  /** saveAndApplyConfig: writes the field text unchanged. */
  function SaveAndApply(store: Store, text: string): (r: Store)
    ensures r.Keys == store.Keys + {ProxyPortKey}
    ensures forall k :: k in store && k != ProxyPortKey ==> r[k] == store[k]
  {
    store[ProxyPortKey := text]
  }

  /** A saved port reads back verbatim. */
  lemma SaveThenRead(store: Store, text: string)
    ensures GetPropertyValue(SaveAndApply(store, text)) == text
  {
  }

  /** Whatever the field shows after a save of accepted text, or on a fresh
      store, the formatter accepts. */
  lemma ReadAccepted(store: Store, text: string)
    requires Accepted(text)
    ensures Accepted(GetPropertyValue(SaveAndApply(store, text)))
    ensures Accepted(GetPropertyValue(map[]))
  {
  }
}
