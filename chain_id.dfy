/**
  Recovering the chain id from the device a host callback was tapped on.

  The device is rendered as a string (for example "TFRT_CPU_3") and searched
  for the pattern `\d+$`. Python's `$` matches at the very end of the string
  and also just before a newline that ends it, so the digits may stand either
  last or last but one. The leftmost match of `\d+` that ends there is the
  maximal run of digits, and the chain id is its decimal value. When there is
  no such run the callback's assertion fails.
 */
module ChainId {

  datatype Option<T> = None | Some(value: T)

  predicate IsDigit(ch: char)
  {
    '0' <= ch <= '9'
  }

  predicate AllDigits(s: string)
  {
    forall i :: 0 <= i < |s| ==> IsDigit(s[i])
  }

  function DigitChar(d: nat): (ch: char)
    requires d < 10
    ensures IsDigit(ch)
  {
    ('0' as int + d) as char
  }

  function DigitValue(ch: char): (d: nat)
    requires IsDigit(ch)
    ensures d < 10 && DigitChar(d) == ch
  {
    ch as int - '0' as int
  }

  /** The decimal rendering of a non-negative int, as str() and f-strings give it. */
  function DecimalString(n: nat): (s: string)
    ensures |s| >= 1 && AllDigits(s)
    ensures |s| > 1 ==> s[0] != '0'
  {
    if n < 10 then [DigitChar(n)] else DecimalString(n / 10) + [DigitChar(n % 10)]
  }

  /** The value int() gives a string of decimal digits; leading zeros are allowed. */
  function DecimalValue(s: string): nat
    requires AllDigits(s)
  {
    if |s| == 0 then 0 else DecimalValue(s[..|s| - 1]) * 10 + DigitValue(s[|s| - 1])
  }

  /** Reading back a rendered number gives the number. */
  lemma {:induction false} DecimalRoundTrip(n: nat)
    ensures DecimalValue(DecimalString(n)) == n
  {
    var s := DecimalString(n);
    if n >= 10 {
      DecimalRoundTrip(n / 10);
      assert s[..|s| - 1] == DecimalString(n / 10);
    }
  }

  /** A leading zero does not change the value read. */
  lemma {:induction false} LeadingZero(s: string)
    requires AllDigits(s)
    ensures AllDigits("0" + s) && DecimalValue("0" + s) == DecimalValue(s)
    decreases |s|
  {
    if |s| > 0 {
      assert ("0" + s)[..|"0" + s| - 1] == "0" + s[..|s| - 1];
      LeadingZero(s[..|s| - 1]);
    }
  }

  /** The maximal run of digits that ends the string. */
  function TrailingDigits(s: string): (ds: string)
    ensures |ds| <= |s| && ds == s[|s| - |ds|..]
    ensures AllDigits(ds)
    ensures |ds| < |s| ==> !IsDigit(s[|s| - |ds| - 1])
  {
    if |s| == 0 || !IsDigit(s[|s| - 1]) then []
    else TrailingDigits(s[..|s| - 1]) + [s[|s| - 1]]
  }

  /** The part of the string that `$` lets the match end at. */
  function MatchSubject(s: string): (t: string)
    ensures if |s| > 0 && s[|s| - 1] == '\n' then s == t + "\n" else t == s
  {
    if |s| > 0 && s[|s| - 1] == '\n' then s[..|s| - 1] else s
  }

  /** True when the device string has digits that `\d+$` can match. */
  predicate HasTrailingDigit(s: string)
  {
    (|s| >= 1 && IsDigit(s[|s| - 1]))
    || (|s| >= 2 && s[|s| - 1] == '\n' && IsDigit(s[|s| - 2]))
  }

  /** The chain id of a device string, or None where the callback's assertion fails. */
  function ParseChain(device: string): (chain: Option<nat>)
    ensures chain.Some? <==> HasTrailingDigit(device)
  {
    var digits := TrailingDigits(MatchSubject(device));
    if |digits| == 0 then None else Some(DecimalValue(digits))
  }

  /** The run of digits a prefix not ending in a digit is followed by is exactly what is found. */
  lemma {:induction false} TrailingDigitsOf(prefix: string, digits: string)
    requires AllDigits(digits)
    requires |prefix| == 0 || !IsDigit(prefix[|prefix| - 1])
    ensures TrailingDigits(prefix + digits) == digits
    decreases |digits|
  {
    if |digits| == 0 {
      assert prefix + digits == prefix;
    } else {
      assert (prefix + digits)[..|prefix + digits| - 1] == prefix + digits[..|digits| - 1];
      TrailingDigitsOf(prefix, digits[..|digits| - 1]);
    }
  }

  /**
    A device string made of a prefix that does not end in a digit, a
    non-empty run of digits and possibly a final newline parses to the value
    of that run.
   */
  lemma ParseChainOf(prefix: string, digits: string, newline: bool)
    requires |digits| >= 1 && AllDigits(digits)
    requires |prefix| == 0 || !IsDigit(prefix[|prefix| - 1])
    ensures ParseChain(prefix + digits + (if newline then "\n" else "")) == Some(DecimalValue(digits))
  {
    var s := prefix + digits + (if newline then "\n" else "");
    assert MatchSubject(s) == prefix + digits by {
      if newline {
        assert s[..|s| - 1] == prefix + digits;
      } else {
        assert s == prefix + digits;
      }
    }
    TrailingDigitsOf(prefix, digits);
  }

  /** Naming a device after its chain, as "TFRT_CPU_3" is, recovers the chain. */
  lemma ParseChainOfName(prefix: string, chain: nat)
    requires |prefix| == 0 || !IsDigit(prefix[|prefix| - 1])
    ensures ParseChain(prefix + DecimalString(chain)) == Some(chain)
  {
    ParseChainOf(prefix, DecimalString(chain), false);
    assert prefix + DecimalString(chain) + "" == prefix + DecimalString(chain);
    DecimalRoundTrip(chain);
  }

  /** A device string as the callbacks see it on a CPU host. */
  lemma ParseChainDeviceExample()
    ensures ParseChain("TFRT_CPU_3") == Some(3)
  {
    var name := "TFRT_CPU_" + DecimalString(3);
    ParseChainOfName("TFRT_CPU_", 3);
    assert DecimalString(3) == "3";
    assert name == "TFRT_CPU_3";
  }

  /** A device string without trailing digits fails the callback's assertion. */
  lemma ParseChainNoDigitsExample()
    ensures ParseChain("cpu") == None
  {
  }
}
