/**
  Decimal numerals: Python's and JavaScript's text form of a natural number.
 */
module Decimal {
  import opened Json

  function Digit(d: nat): char
    requires d < 10
  {
    '0' + d as char
  }

  function Print(n: nat): (s: string)
    ensures |s| > 0
    ensures forall i :: 0 <= i < |s| ==> '0' <= s[i] <= '9'
  {
    if n < 10 then [Digit(n)] else Print(n / 10) + [Digit(n % 10)]
  }

  /** `int(s)` on a string of digits; None is the ValueError. */
  function Parse(s: string): Option<nat>
  {
    if s == [] then None
    else
      var n := |s| - 1;
      if !('0' <= s[n] <= '9') then None
      else
        var d: nat := s[n] as nat - '0' as nat;
        if n == 0 then Some(d)
        else
          var high := Parse(s[..n]);
          if high.None? then None else Some(10 * high.value + d)
  }

  lemma {:induction false} ParsePrint(n: nat)
    ensures Parse(Print(n)) == Some(n)
  {
    var s := Print(n);
    if n >= 10 {
      ParsePrint(n / 10);
      assert s[..|s| - 1] == Print(n / 10);
    }
  }

  lemma {:induction false} ParseLeadingZero(s: string)
    requires Parse(s).Some?
    ensures Parse("0" + s) == Parse(s)
    decreases |s|
  {
    var n := |s| - 1;
    if n > 0 {
      ParseLeadingZero(s[..n]);
      assert ("0" + s)[..n + 1] == "0" + s[..n];
    } else {
      assert ("0" + s)[..1] == "0";
      assert Parse("0") == Some(0);
    }
  }

  /** How many digits a number has, up to three. */
  lemma PrintLength(n: nat)
    ensures |Print(n)| == 1 <==> n < 10
    ensures |Print(n)| == 2 <==> 10 <= n < 100
    ensures |Print(n)| == 3 <==> 100 <= n < 1000
  {
    if n >= 10 {
      assert |Print(n)| == |Print(n / 10)| + 1;
      if n >= 100 {
        assert |Print(n / 10)| == |Print(n / 100)| + 1;
        if n >= 1000 { assert |Print(n / 100)| == |Print(n / 1000)| + 1; }
      }
    }
  }
}
