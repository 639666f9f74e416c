/** Decimal numbers as text: printing, and reading the longest digit prefix. */
module Decimal {

  const SIZE_LIMIT: nat := 0x1_0000_0000_0000_0000

  /** What reading a number into a 64-bit size comes to. */
  datatype Number = NoDigits | Fits(n: nat) | TooBig

  predicate IsDigit(c: char) {
    '0' <= c <= '9'
  }

  function Digit(d: nat): char
    requires d < 10
  {
    '0' + d as char
  }

  function DigitValue(c: char): (d: nat)
    requires IsDigit(c)
    ensures d < 10
  {
    c as nat - '0' as nat
  }

  predicate AllDigits(s: string) {
    forall i :: 0 <= i < |s| ==> IsDigit(s[i])
  }

  function Print(n: nat): string {
    if n < 10 then [Digit(n)] else Print(n / 10) + [Digit(n % 10)]
  }

  function Value(s: string): nat
    requires AllDigits(s)
  {
    if s == [] then 0 else Value(s[..|s| - 1]) * 10 + DigitValue(s[|s| - 1])
  }

  function DigitCount(s: string): (k: nat)
    ensures k <= |s| && AllDigits(s[..k]) && (k < |s| ==> !IsDigit(s[k]))
  {
    if s == [] || !IsDigit(s[0]) then 0
    else
      var k := DigitCount(s[1..]);
      assert s[..k + 1] == [s[0]] + s[1..][..k];
      k + 1
  }

  /** Reads the digits the text starts with; whatever follows is ignored. */
  function Read(s: string): Number {
    var k := DigitCount(s);
    if k == 0 then NoDigits
    else if Value(s[..k]) < SIZE_LIMIT then Fits(Value(s[..k]))
    else TooBig
  }

  lemma {:induction false} PrintMeans(n: nat)
    ensures Print(n) != [] && AllDigits(Print(n)) && Value(Print(n)) == n
  {
    if n < 10 {
      assert Print(n)[..0] == [];
    } else {
      PrintMeans(n / 10);
      var s := Print(n);
      assert s[..|s| - 1] == Print(n / 10);
    }
  }

  /** Printing and reading back. */
  lemma ReadPrint(n: nat)
    requires n < SIZE_LIMIT
    ensures Read(Print(n)) == Fits(n)
  {
    PrintMeans(n);
    var s := Print(n);
    assert DigitCount(s) == |s|;
    assert s[..|s|] == s;
  }
}
