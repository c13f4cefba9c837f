/**
 * The "Time Options" panel: two entry fields (delay time and bench time)
 * whose keystrokes are filtered by an integer validator, a focus-out rule
 * that refills an emptied field, getters that turn the text into seconds,
 * and a reset.
 */
module TimeSection {
  import opened Wrappers
  import opened PyText

  /** The two fields of the panel. */
  datatype Field = Delay | Bench

  /** The bounds the field's validator is given, in seconds. */
  function Minimum(f: Field): int { if f == Delay then 0 else 1 }

  const Maximum: int := 180

  /** The text a field starts with, is reset to, and is refilled with when left empty. */
  function DefaultText(f: Field): string { if f == Delay then "0" else "1" }

  /**
   * `validate_integer`: the empty text is allowed for the time being; otherwise
   * `int()` must accept the text, the number must lie within the bounds, and
   * a text longer than one character must not start with '0'.
   */
  function ValidateInteger(value: string, minimum: int, maximum: int): (ok: bool)
    ensures ok && value != [] ==> ParseInt(value).Some? && minimum <= ParseInt(value).value <= maximum
    ensures ok && |value| > 1 ==> value[0] != '0'
    ensures value == [] ==> ok
    ensures ParseInt(value).Some? && minimum <= ParseInt(value).value <= maximum && (|value| > 1 ==> value[0] != '0') ==> ok
  {
    if value == "" then true
    else
      match ParseInt(value)
      case None => false
      case Some(num) =>
        if !(minimum <= num <= maximum) then false
        else if value[0] == '0' && |value| > 1 then false
        else true
  }

  /** `delay_validation_wrapper` and `bench_validation_wrapper`. */
  function Accepts(f: Field, value: string): bool
  {
    ValidateInteger(value, Minimum(f), Maximum)
  }

  /** `str(n)` has no leading zero, except "0" itself. */
  lemma {:induction false} NatToStringLeadingDigit(n: nat)
    ensures NatToString(n)[0] == '0' ==> n == 0 && |NatToString(n)| == 1
    decreases n
  {
    if n >= 10 {
      NatToStringLeadingDigit(n / 10);
      assert NatToString(n)[0] == NatToString(n / 10)[0];
    }
  }

  /** The validator accepts every number within the bounds written the way `str` writes it, and rejects every number outside them whatever its spelling. */
  lemma ValidateIntegerBounds(n: nat, minimum: int, maximum: int, value: string)
    ensures ValidateInteger(NatToString(n), minimum, maximum) <==> minimum <= n <= maximum
    ensures ParseInt(value).Some? && !(minimum <= ParseInt(value).value <= maximum) ==> !ValidateInteger(value, minimum, maximum)
  {
    ParseIntRoundTrip(n);
    NatToStringLeadingDigit(n);
  }

  /** A text longer than one character that starts with '0' ("00", "05", "0_1") is refused whatever it denotes. */
  lemma LeadingZeroRejected(value: string, minimum: int, maximum: int)
    requires |value| > 1 && value[0] == '0'
    ensures !ValidateInteger(value, minimum, maximum)
  {
  }

  /** The defaults pass their own field's validator. */
  lemma DefaultsAccepted(f: Field)
    ensures Accepts(f, DefaultText(f))
    ensures ParseInt(DefaultText(f)) == Some(Minimum(f))
  {
    if f == Delay {
      ParseIntRoundTrip(0);
      assert NatToString(0) == "0";
    } else {
      ParseIntRoundTrip(1);
      assert NatToString(1) == "1";
    }
  }

  /** What a getter returns for the field's text: `int(text or default)`, or 0 where `int()` raises. */
  function TimeOf(f: Field, text: string): int
  {
    match ParseInt(if text == "" then DefaultText(f) else text)
    case Some(n) => n
    case None => 0
  }

  /** A text the validator accepted always gives a time within the field's bounds; the empty text gives the field's minimum. */
  lemma AcceptedTimeInBounds(f: Field, text: string)
    requires Accepts(f, text)
    ensures Minimum(f) <= TimeOf(f, text) <= Maximum
    ensures text == [] ==> TimeOf(f, text) == Minimum(f)
  {
    DefaultsAccepted(f);
  }

  /** `TimeSection`: the texts of its two entry fields. */
  class Panel {
    var delayText: string
    var benchText: string

    function Text(f: Field): string
      reads this
    {
      if f == Delay then delayText else benchText
    }

    /** Every text a field holds got past its validator. */
    ghost predicate Valid()
      reads this
    {
      Accepts(Delay, delayText) && Accepts(Bench, benchText)
    }

    /** The fields start as "0" and "1". */
    constructor ()
      ensures Valid()
      ensures delayText == DefaultText(Delay) && benchText == DefaultText(Bench)
    {
      delayText := "0";
      benchText := "1";
      DefaultsAccepted(Delay);
      DefaultsAccepted(Bench);
    }

    /** A keystroke that would turn the field's text into `proposed`: the entry keeps it exactly when the field's validator accepts it (`validate='key'` with `%P`). */
    method Edit(f: Field, proposed: string) returns (accepted: bool)
      requires Valid()
      modifies this
      ensures Valid()
      ensures accepted == Accepts(f, proposed)
      ensures Text(f) == (if accepted then proposed else old(Text(f)))
      ensures f == Delay ==> benchText == old(benchText)
      ensures f == Bench ==> delayText == old(delayText)
    {
      accepted := Accepts(f, proposed);
      if accepted {
        if f == Delay {
          delayText := proposed;
        } else {
          benchText := proposed;
        }
      }
    }

    /** `handle_focus_out`: an empty field is refilled with its default; any other text stays. */
    method HandleFocusOut(f: Field)
      requires Valid()
      modifies this
      ensures Valid()
      ensures Text(f) == (if old(Text(f)) == [] then DefaultText(f) else old(Text(f)))
      ensures f == Delay ==> benchText == old(benchText)
      ensures f == Bench ==> delayText == old(delayText)
    {
      DefaultsAccepted(f);
      if f == Delay {
        if delayText == "" {
          delayText := "0";
        }
      } else {
        if benchText == "" {
          benchText := "1";
        }
      }
    }

    /** `get_delay_time`: a whole number of seconds within 0..180, 0 for an empty field. */
    method GetDelayTime() returns (t: int)
      ensures t == TimeOf(Delay, delayText)
      ensures Valid() ==> 0 <= t <= 180
    {
      var text := if delayText == "" then "0" else delayText;
      match ParseInt(text) {
        case Some(n) => t := n;
        case None => t := 0;
      }
      if Valid() {
        AcceptedTimeInBounds(Delay, delayText);
      }
    }

    /** `get_bench_time`: a whole number of seconds within 1..180, 1 for an empty field. */
    method GetBenchTime() returns (t: int)
      ensures t == TimeOf(Bench, benchText)
      ensures Valid() ==> 1 <= t <= 180
    {
      var text := if benchText == "" then "1" else benchText;
      match ParseInt(text) {
        case Some(n) => t := n;
        case None => t := 0;
      }
      if Valid() {
        AcceptedTimeInBounds(Bench, benchText);
      }
    }

    /** `reset`: both fields back to their defaults. */
    method Reset()
      modifies this
      ensures Valid()
      ensures delayText == DefaultText(Delay) && benchText == DefaultText(Bench)
    {
      delayText := "0";
      benchText := "1";
      DefaultsAccepted(Delay);
      DefaultsAccepted(Bench);
    }
  }
}
