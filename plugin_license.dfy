/** PluginLicense: the licence of a plugin, an email and a serial. The
    serial is valid when it is the upper-case SHA-1 hex digest of the email
    followed by the plugin's cipher. Checking may first fetch a serial from
    the licence server; here the server's answer is an input and SHA-1 an
    uninterpreted function. */
module PluginLicense {
  import opened Common
  import opened Text

  /** Null or the empty string. */
  predicate Blank(s: Option<string>) {
    s.None? || s.value == ""
  }

  /** setEmail: trims a non-empty email; null and "" are kept as they are. */
  function NormalizeEmail(email: Option<string>): (r: Option<string>)
    ensures Blank(email) ==> r == email
    ensures !Blank(email) ==> r.Some? && |r.value| <= |email.value|
  {
    if Blank(email) then email else Some(Trim(email.value))
  }

  /** setSerial: trims and upper-cases a non-empty serial; null and "" are
      kept as they are. */
  function NormalizeSerial(serial: Option<string>): (r: Option<string>)
    ensures Blank(serial) ==> r == serial
    ensures !Blank(serial) ==> r.Some? && |r.value| <= |serial.value|
  {
    if Blank(serial) then serial else Some(Upper(Trim(serial.value)))
  }

  /** Setting an email twice stores what setting it once does. */
  lemma NormalizeEmailIdempotent(email: Option<string>)
    ensures NormalizeEmail(NormalizeEmail(email)) == NormalizeEmail(email)
  {
    if !Blank(email) {
      TrimOfTrimmed(Trim(email.value));
    }
  }

  /** Upper-casing keeps blank characters blank and others not blank. */
  lemma UpperKeepsBlanks(s: string)
    ensures forall i :: 0 <= i < |s| ==> (IsBlank(Upper(s)[i]) <==> IsBlank(s[i]))
  {
  }

  /** Setting a serial twice stores what setting it once does. */
  lemma NormalizeSerialIdempotent(serial: Option<string>)
    ensures NormalizeSerial(NormalizeSerial(serial)) == NormalizeSerial(serial)
  {
    if !Blank(serial) {
      var t := Trim(serial.value);
      var u := Upper(t);
      UpperKeepsBlanks(t);
      if u != [] {
        assert !IsBlank(u[0]) && !IsBlank(u[|u| - 1]);
      }
      TrimOfTrimmed(u);
      UpperIdempotent(t);
    }
  }

  /** A normalised serial holds no lower-case letter and has no blank ends. */
  lemma NormalizedSerialShape(serial: Option<string>)
    requires !Blank(serial)
    ensures var s := NormalizeSerial(serial).value;
      && (forall i :: 0 <= i < |s| ==> !('a' <= s[i] <= 'z'))
      && (s == [] || (!IsBlank(s[0]) && !IsBlank(s[|s| - 1])))
  {
    UpperKeepsBlanks(Trim(serial.value));
  }

  /** What Java's string concatenation writes for a possibly-null cipher. */
  function CipherText(cipher: Option<string>): string {
    if cipher.None? then "null" else cipher.value
  }

  /** checkValidLicense: false for a null or empty email or serial;
      otherwise whether the serial is the upper-cased SHA-1 hex of the email
      followed by the cipher. */
  predicate ValidLicense(email: Option<string>, serial: Option<string>, cipher: Option<string>,
                         sha1Hex: string -> string)
  {
    !Blank(email) && !Blank(serial) && serial.value == Upper(sha1Hex(email.value + CipherText(cipher)))
  }

  /** A valid serial is never null, empty or different from the digest, and
      the digest itself is a valid serial. */
  lemma ValidLicenseExactly(email: string, serial: Option<string>, cipher: Option<string>, sha1Hex: string -> string)
    requires email != ""
    ensures ValidLicense(Some(email), serial, cipher, sha1Hex) <==>
      serial == Some(Upper(sha1Hex(email + CipherText(cipher)))) && serial.value != ""
  {
  }

  /** What checkLicense leaves behind: its answer (or the exception), the
      serial it holds afterwards, and whether it asked the licence server. */
  datatype CheckOutcome = CheckOutcome(answer: Result<bool>, serial: Option<string>, fetched: bool)

  /** The serial is checked; a valid one is passed through setSerial. */
  function Validate(email: Option<string>, serial: Option<string>, cipher: Option<string>,
                    sha1Hex: string -> string, fetched: bool): CheckOutcome
  {
    if ValidLicense(email, serial, cipher, sha1Hex) then CheckOutcome(Success(true), NormalizeSerial(serial), fetched)
    else CheckOutcome(Success(false), serial, fetched)
  }

  /** checkLicense: false at once for a null or empty email. With
      getLicense, a serial that is not valid is replaced by the server's
      answer, trimmed but not upper-cased (a failed request throws). The
      serial then held is checked. */
  function CheckSpec(email: Option<string>, serial: Option<string>, cipher: Option<string>, getLicense: bool,
                     fetched: Result<string>, sha1Hex: string -> string): CheckOutcome
  {
    if Blank(email) then CheckOutcome(Success(false), serial, false)
    else if getLicense && !ValidLicense(email, serial, cipher, sha1Hex) then
      match fetched
      case Failure(_) => CheckOutcome(Failure(LicenseFetch), serial, true)
      case Success(text) => Validate(email, Some(Trim(text)), cipher, sha1Hex, true)
    else Validate(email, serial, cipher, sha1Hex, false)
  }

  /** The server is asked exactly when the email is set, getLicense is
      true and the serial held is not valid. */
  lemma FetchOnlyWhenInvalid(email: Option<string>, serial: Option<string>, cipher: Option<string>, getLicense: bool,
                             fetched: Result<string>, sha1Hex: string -> string)
    ensures CheckSpec(email, serial, cipher, getLicense, fetched, sha1Hex).fetched <==>
      !Blank(email) && getLicense && !ValidLicense(email, serial, cipher, sha1Hex)
  {
  }

  /** The answer is true exactly when the serial checked (the one held, or
      the server's when it was asked) is valid; a true answer leaves that
      serial normalised, a false one leaves it as it is. Only a failed
      request throws. */
  lemma CheckAnswer(email: Option<string>, serial: Option<string>, cipher: Option<string>, getLicense: bool,
                    fetched: Result<string>, sha1Hex: string -> string)
    ensures var o := CheckSpec(email, serial, cipher, getLicense, fetched, sha1Hex);
      var checked := if o.fetched && fetched.Success? then Some(Trim(fetched.value)) else serial;
      && (o.answer.Failure? <==> o.fetched && fetched.Failure?)
      && (o.answer.Failure? ==> o.answer.error == LicenseFetch && o.serial == serial)
      && (o.answer.Success? ==> o.answer.value == ValidLicense(email, checked, cipher, sha1Hex))
      && (o.answer == Success(true) ==> o.serial == NormalizeSerial(checked))
      && (o.answer == Success(false) ==> o.serial == checked)
  {
  }

  /** A valid serial is kept (normalised) without asking the server, with
      or without getLicense. */
  lemma ValidSerialNeedsNoFetch(email: Option<string>, serial: Option<string>, cipher: Option<string>, getLicense: bool,
                                fetched: Result<string>, sha1Hex: string -> string)
    requires ValidLicense(email, serial, cipher, sha1Hex)
    ensures CheckSpec(email, serial, cipher, getLicense, fetched, sha1Hex) == CheckOutcome(Success(true), NormalizeSerial(serial), false)
  {
  }

  class PluginLicense {
    var pluginId: Option<string>
    var email: Option<string>
    var serial: Option<string>
    var cipher: Option<string>
    /** How many times the licence server has been asked. */
    var fetches: nat

    /** The constructor passes every argument through its setter. */
    constructor (pluginId: Option<string>, email: Option<string>, serial: Option<string>, cipher: Option<string>)
      ensures this.pluginId == pluginId && this.cipher == cipher && fetches == 0
      ensures this.email == NormalizeEmail(email) && this.serial == NormalizeSerial(serial)
    {
      this.pluginId, this.cipher, fetches := pluginId, cipher, 0;
      new;
      SetEmail(email);
      SetSerial(serial);
    }

    method SetEmail(email: Option<string>)
      modifies this
      ensures this.email == NormalizeEmail(email)
      ensures serial == old(serial) && cipher == old(cipher) && pluginId == old(pluginId) && fetches == old(fetches)
    {
      var e := email;
      if e.Some? && |e.value| != 0 {
        e := Some(Trim(e.value));
      }
      this.email := e;
    }

    method SetSerial(serial: Option<string>)
      modifies this
      ensures this.serial == NormalizeSerial(serial)
      ensures email == old(email) && cipher == old(cipher) && pluginId == old(pluginId) && fetches == old(fetches)
    {
      var s := serial;
      if s.Some? && |s.value| != 0 {
        s := Some(Upper(Trim(s.value)));
      }
      this.serial := s;
    }

    /** checkLicense(getLicense), as CheckSpec describes it; the licence
        server's answer is `fetched`, and `fetches` counts the requests. */
    method CheckLicense(getLicense: bool, fetched: Result<string>, sha1Hex: string -> string) returns (r: Result<bool>)
      modifies this
      ensures email == old(email) && cipher == old(cipher) && pluginId == old(pluginId)
      ensures var o := CheckSpec(old(email), old(serial), cipher, getLicense, fetched, sha1Hex);
        && r == o.answer && serial == o.serial
        && fetches == old(fetches) + (if o.fetched then 1 else 0)
    {
      var current := serial;
      if email.None? || |email.value| == 0 {
        return Success(false);
      }
      if getLicense && (current.None? || |current.value| == 0 || !ValidLicense(email, current, cipher, sha1Hex)) {
        fetches := fetches + 1;
        if fetched.Failure? {
          return Failure(LicenseFetch);
        }
        current := Some(Trim(fetched.value));
        serial := current;
      }
      if current.None? || |current.value| == 0 {
        return Success(false);
      }
      if ValidLicense(email, current, cipher, sha1Hex) {
        SetSerial(current);
        return Success(true);
      }
      r := Success(false);
    }
  }
}
