/**
 * The digit-display decoder of src/lcd_kata/day_6.rs: a string of decimal
 * digits is validated and decoded into a `VecDigit`, and a `Display` holds the
 * last input it was given and decodes it on demand.
 */
module Lcd {
  import opened Wrappers

  /** The ten digits, in the order the source declares them. */
  datatype Digit = One | Two | Three | Four | Five | Six | Seven | Eight | Nine | Zero

  /** A decoded display line: one digit per input character. */
  datatype VecDigit = VecDigit(data: seq<Digit>)

  /** The one error the decoder reports: some character is not a decimal digit. */
  datatype DisplayError = DisplayError

  predicate IsDigitChar(c: char) {
    '0' <= c <= '9'
  }

  /** The character a digit is written with; the inverse of `DigitFrom`. */
  function DigitChar(d: Digit): (c: char)
    ensures IsDigitChar(c)
  {
    match d
    case Zero => '0'
    case One => '1'
    case Two => '2'
    case Three => '3'
    case Four => '4'
    case Five => '5'
    case Six => '6'
    case Seven => '7'
    case Eight => '8'
    case Nine => '9'
  }

  /**
   * `Digit::from(char)`. The source marks every other character unreachable,
   * so a decimal digit is required of the caller.
   */
  function DigitFrom(c: char): (d: Digit)
    requires IsDigitChar(c)
    ensures DigitChar(d) == c
  {
    match c
    case '1' => One
    case '2' => Two
    case '3' => Three
    case '4' => Four
    case '5' => Five
    case '6' => Six
    case '7' => Seven
    case '8' => Eight
    case '9' => Nine
    case '0' => Zero
  }

  /** Every digit is reached: `DigitFrom` is onto, and with its ensures a bijection. */
  lemma DigitFromOnto(d: Digit)
    ensures DigitFrom(DigitChar(d)) == d
  {
  }

  /** Distinct digit characters decode to distinct digits. */
  lemma DigitFromInjective(c1: char, c2: char)
    requires IsDigitChar(c1) && IsDigitChar(c2)
    ensures DigitFrom(c1) == DigitFrom(c2) <==> c1 == c2
  {
    assert DigitChar(DigitFrom(c1)) == c1;
  }

  /**
   * What `VecDigit::from_str` returns: an error as soon as one character is
   * not a decimal digit, otherwise the digits of all characters in order.
   */
  function Decode(s: string): (r: Result<VecDigit, DisplayError>)
    ensures r.Err? <==> exists i :: 0 <= i < |s| && !IsDigitChar(s[i])
    ensures r.Ok? ==> |r.value.data| == |s|
    ensures r.Ok? ==> forall i :: 0 <= i < |s| ==> r.value.data[i] == DigitFrom(s[i])
  {
    if s == [] then Ok(VecDigit([]))
    else if !IsDigitChar(s[0]) then Err(DisplayError)
    else
      match Decode(s[1..])
      case Err(e) => Err(e)
      case Ok(rest) => Ok(VecDigit([DigitFrom(s[0])] + rest.data))
  }

  /** `VecDigit::from_str`: a loop that pushes one digit per character and returns early on a non-digit. */
  method FromStr(s: string) returns (r: Result<VecDigit, DisplayError>)
    ensures r == Decode(s)
  {
    var vec: seq<Digit> := [];
    var i := 0;
    while i < |s|
      invariant 0 <= i <= |s|
      invariant forall k :: 0 <= k < i ==> IsDigitChar(s[k])
      invariant |vec| == i
      invariant forall k :: 0 <= k < i ==> vec[k] == DigitFrom(s[k])
    {
      var c := s[i];
      if c < '0' || c > '9' {
        assert !IsDigitChar(s[i]);
        assert Decode(s).Err? && Decode(s).error == DisplayError;
        return Err(DisplayError);
      }
      vec := vec + [DigitFrom(c)];
      i := i + 1;
    }
    r := Ok(VecDigit(vec));
    assert Decode(s).Ok?;
    assert Decode(s).value.data == vec;
  }

  /** The display: remembers its last input and decodes it when asked for output. */
  class Display {
    var input: Option<string>

    /** `Display::new`: no input yet. */
    constructor ()
      ensures input == None
    {
      input := None;
    }

    /** `Display::input`: replaces whatever input was held before. */
    method Input(data: string)
      modifies this
      ensures input == Some(data)
    {
      input := Some(data);
    }

    /**
     * `Display::output`: the decoding of the held input, or an empty line when
     * there is none. It changes nothing (no modifies clause).
     */
    method Output() returns (r: Result<VecDigit, DisplayError>)
      ensures input.None? ==> r == Ok(VecDigit([]))
      ensures input.Some? ==> r == Decode(input.value)
    {
      match input
      case Some(data) =>
        r := FromStr(data);
      case None =>
        r := Ok(VecDigit([]));
    }
  }

  /** The display's lifecycle: a fresh display shows an empty line, and a later input replaces an earlier one. */
  method DisplayLifecycle(first: string, second: string) returns (empty: Result<VecDigit, DisplayError>, shown: Result<VecDigit, DisplayError>)
    ensures empty == Ok(VecDigit([]))
    ensures shown == Decode(second)
  {
    var d := new Display();
    empty := d.Output();
    d.Input(first);
    d.Input(second);
    shown := d.Output();
  }
}
