/** SchedulerSleepTimeFieldType: the configuration spinner for the
    synchronisation scheduler's sleep time. The store keeps milliseconds as
    a long; the spinner shows whole seconds as an int, from 10 to 5 hours in
    steps of 60. */
module SleepTimeField {
  import opened Common
  import opened Settings

  const SleepTimeKey := "synchronizer.scheduler_sleep_time"
  const SpinnerMin := 10
  const SpinnerMax := 5 * 3600
  const SpinnerStep := 60

  const Int32Min := -0x8000_0000
  const Int32Max := 0x7FFF_FFFF
  const Int64Min := -0x8000_0000_0000_0000
  const Int64Max := 0x7FFF_FFFF_FFFF_FFFF

  predicate IsInt(n: int) {
    Int32Min <= n <= Int32Max
  }

  predicate IsLong(n: int) {
    Int64Min <= n <= Int64Max
  }

  /** Java's integer division, which truncates toward zero. */
  function JavaDiv(a: int, b: int): (r: int)
    requires b > 0
    ensures a >= 0 ==> r == a / b
    ensures 0 <= a - r * b < b || (a < 0 && -b < a - r * b <= 0)
  {
    if a >= 0 then a / b else -((-a) / b)
  }

  /** Java's remainder, which takes the sign of the dividend. */
  function JavaRem(a: int, b: int): int
    requires b > 0
  {
    a - JavaDiv(a, b) * b
  }

  /** The (int) cast of a long: keeps the low 32 bits, as two's complement. */
  function ToInt(n: int): (r: int)
    ensures IsInt(r)
    ensures IsInt(n) ==> r == n
    ensures (r - n) % 0x1_0000_0000 == 0
  {
    var m := (n - Int32Min) % 0x1_0000_0000 + Int32Min;
    assert IsInt(n) ==> n - Int32Min < 0x1_0000_0000;
    m
  }

  /** getPropertyValue, on the stored milliseconds. */
  function SecondsOf(millis: int): int {
    ToInt(JavaDiv(millis, 1000))
  }

  /** saveAndApplyConfig, on the spinner's seconds: an int widened to long
      and multiplied by 1000L, which cannot overflow. */
  function MillisOf(seconds: int): (r: int)
    requires IsInt(seconds)
    ensures IsLong(r)
  {
    seconds * 1000
  }

  /** getPropertyValue: getLongProperty returns null for an absent key,
      which the division unboxes; a value that is not a long throws
      NumberFormatException. */
  function GetPropertyValue(store: Store): Result<int> {
    if SleepTimeKey !in store then Failure(NullArgument)
    else match ParseInt(store[SleepTimeKey])
      case None => Failure(NumberFormat)
      case Some(ms) => if IsLong(ms) then Success(SecondsOf(ms)) else Failure(NumberFormat)
  }

  /** saveAndApplyConfig: writes the seconds times 1000 under the key. */
  function SaveAndApply(store: Store, seconds: int): (r: Store)
    requires IsInt(seconds)
    ensures r.Keys == store.Keys + {SleepTimeKey}
    ensures forall k :: k in store && k != SleepTimeKey ==> r[k] == store[k]
  {
    store[SleepTimeKey := FormatInt(MillisOf(seconds))]
  }

  /** The displayed seconds are the stored milliseconds divided by 1000,
      truncated toward zero, whenever that fits an int. */
  lemma SecondsTruncate(millis: int)
    requires IsInt(JavaDiv(millis, 1000))
    ensures millis >= 0 ==> SecondsOf(millis) * 1000 <= millis < SecondsOf(millis) * 1000 + 1000
    ensures millis < 0 ==> SecondsOf(millis) * 1000 - 1000 < millis <= SecondsOf(millis) * 1000
  {
  }

  /** Saving then reading gives back the saved seconds. */
  lemma SaveThenRead(store: Store, seconds: int)
    requires IsInt(seconds)
    ensures GetPropertyValue(SaveAndApply(store, seconds)) == Success(seconds)
  {
    ParseFormatInt(MillisOf(seconds));
    assert JavaDiv(seconds * 1000, 1000) == seconds;
  }

  /** Reading then saving drops the sub-second remainder... */
  lemma ReadThenSaveDropsRemainder(millis: int)
    requires IsInt(JavaDiv(millis, 1000))
    ensures MillisOf(SecondsOf(millis)) == millis - JavaRem(millis, 1000)
    ensures -1000 < JavaRem(millis, 1000) < 1000
  {
  }

  /** ...and after one cycle nothing changes any more. */
  lemma ReadSaveIdempotent(millis: int)
    ensures var s := SecondsOf(millis);
      SecondsOf(MillisOf(s)) == s
  {
    var s := SecondsOf(millis);
    assert JavaDiv(s * 1000, 1000) == s;
  }

  /** The spinner model: SpinnerNumberModel refuses an initial value
      outside its bounds with IllegalArgumentException. */
  function SpinnerValue(initial: int): (r: Result<int>)
    ensures r.Success? <==> SpinnerMin <= initial <= SpinnerMax
    ensures r.Success? ==> r.value == initial
  {
    if SpinnerMin <= initial <= SpinnerMax then Success(initial) else Failure(IllegalArgument)
  }

  /** The spinner's up arrow: one step up, or nothing beyond the maximum. */
  function NextValue(v: int): Option<int> {
    if v + SpinnerStep <= SpinnerMax then Some(v + SpinnerStep) else None
  }

  /** The spinner's down arrow: one step down, or nothing below the minimum. */
  function PreviousValue(v: int): Option<int> {
    if v - SpinnerStep >= SpinnerMin then Some(v - SpinnerStep) else None
  }

  /** The arrows keep a value within 10..18000 and undo each other. */
  lemma StepsStayInRange(v: int)
    requires SpinnerMin <= v <= SpinnerMax
    ensures NextValue(v).Some? ==> SpinnerMin <= NextValue(v).value <= SpinnerMax
    ensures PreviousValue(v).Some? ==> SpinnerMin <= PreviousValue(v).value <= SpinnerMax
    ensures NextValue(v).Some? ==> PreviousValue(NextValue(v).value) == Some(v)
    ensures NextValue(v).None? <==> v > SpinnerMax - SpinnerStep
  {
  }

  /** Building the field fails unless the stored time, in seconds, lies
      within the spinner's bounds. */
  function Construct(store: Store): (r: Result<int>)
    ensures r.Success? ==> SpinnerMin <= r.value <= SpinnerMax
    ensures r.Success? ==> GetPropertyValue(store) == Success(r.value)
  {
    match GetPropertyValue(store)
    case Failure(e) => Failure(e)
    case Success(v) => SpinnerValue(v)
  }

  /** Any seconds the spinner can hold survive a save and a rebuild. */
  lemma SaveThenConstruct(store: Store, seconds: int)
    requires SpinnerMin <= seconds <= SpinnerMax
    ensures Construct(SaveAndApply(store, seconds)) == Success(seconds)
  {
    SaveThenRead(store, seconds);
  }
}
