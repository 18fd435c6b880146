/** The application's key/value settings store (a properties file held in
    memory): every value is text, integers and booleans are written with
    Integer.toString / Boolean.toString and read back with Integer.parseInt /
    Boolean.parseBoolean. */
module Settings {
  import opened Common
  import opened Text

  type Store = map<string, string>

  predicate IsDigit(c: char) {
    '0' <= c <= '9'
  }

  predicate AllDigits(s: string) {
    forall i :: 0 <= i < |s| ==> IsDigit(s[i])
  }

  function DigitChar(d: nat): (c: char)
    requires d < 10
    ensures IsDigit(c) && c as int - '0' as int == d
  {
    ('0' as int + d) as char
  }

  /** Decimal digits of n, most significant first, without leading zeros. */
  function NatToDigits(n: nat): (r: string)
    ensures r != [] && AllDigits(r)
    ensures n > 0 ==> r[0] != '0'
  {
    if n < 10 then [DigitChar(n)] else NatToDigits(n / 10) + [DigitChar(n % 10)]
  }

  /** The value of a string of decimal digits. */
  function DigitsToNat(s: string): nat
    requires AllDigits(s)
  {
    if s == [] then 0
    else DigitsToNat(s[..|s| - 1]) * 10 + (s[|s| - 1] as int - '0' as int)
  }

  lemma {:induction false} DigitsRoundTrip(n: nat)
    ensures DigitsToNat(NatToDigits(n)) == n
  {
    if n >= 10 {
      var s := NatToDigits(n);
      assert s[..|s| - 1] == NatToDigits(n / 10);
      DigitsRoundTrip(n / 10);
    }
  }

  /** Integer.toString (the store's setIntegerProperty / setLongProperty). */
  function FormatInt(n: int): string {
    if n < 0 then "-" + NatToDigits(-n) else NatToDigits(n)
  }

  /** Integer.parseInt: an optional sign followed by at least one digit;
      None where Java throws NumberFormatException. */
  function ParseInt(s: string): Option<int> {
    if |s| > 1 && s[0] == '-' && AllDigits(s[1..]) then Some(-(DigitsToNat(s[1..]) as int))
    else if |s| > 1 && s[0] == '+' && AllDigits(s[1..]) then Some(DigitsToNat(s[1..]))
    else if |s| > 0 && AllDigits(s) then Some(DigitsToNat(s))
    else None
  }

  /** What the store writes for an integer, parseInt reads back unchanged. */
  lemma ParseFormatInt(n: int)
    ensures ParseInt(FormatInt(n)) == Some(n)
  {
    if n < 0 {
      DigitsRoundTrip(-n);
      assert FormatInt(n)[1..] == NatToDigits(-n);
    } else {
      DigitsRoundTrip(n);
    }
  }

  /** Boolean.toString. */
  function FormatBool(b: bool): string {
    if b then "true" else "false"
  }

  /** Boolean.parseBoolean: "true" in any letter case. */
  function ParseBool(s: string): bool {
    Lower(s) == "true"
  }

  lemma ParseFormatBool(b: bool)
    ensures ParseBool(FormatBool(b)) == b
  {
    assert Lower("true") == "true";
  }

  /** getIntegerProperty(key, default): the default when the key is absent
      or its text is not an integer. */
  function GetInt(store: Store, key: string, default: int): int {
    if key in store then ParseInt(store[key]).GetOr(default) else default
  }

  /** getBooleanProperty(key, default). */
  function GetBool(store: Store, key: string, default: bool): bool {
    if key in store then ParseBool(store[key]) else default
  }

  /** getBooleanProperty(key): a Boolean that is null when the key is absent. */
  function GetBoolOrNull(store: Store, key: string): Option<bool> {
    if key in store then Some(ParseBool(store[key])) else None
  }

  /** getStringProperty(key): null when the key is absent. */
  function GetString(store: Store, key: string): Option<string> {
    if key in store then Some(store[key]) else None
  }

  /** The application's settings object, shared by everything that reads or
      writes settings. */
  class SettingsStore {
    var props: Store

    constructor (props: Store)
      ensures this.props == props
    {
      this.props := props;
    }
  }
}
