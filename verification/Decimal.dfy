/** std::to_string on integers and the text of decimal numbers, with the readers that undo
    them.

    Numbers are printed without leading zeros; where the source pads a number with zeros to a
    given width, the reader skips them. Doubles are decimal numbers with six places, as
    std::to_string prints them, kept as a sign and a number of millionths. */
module Decimal {
  import opened Wrappers

  function Signed(negative: bool, n: nat): int { if negative then 0 - n else n }

  predicate IsDigit(c: char) { '0' <= c <= '9' }

  predicate AllDigits(s: string) { forall i :: 0 <= i < |s| ==> IsDigit(s[i]) }

  function Digit(d: nat): (c: char)
    requires d < 10
    ensures IsDigit(c)
  {
    ('0' as int + d) as char
  }

  function DigitValue(c: char): (d: nat)
    requires IsDigit(c)
    ensures d < 10
  {
    c as int - '0' as int
  }

  function NatToString(n: nat): (s: string)
    ensures s != "" && AllDigits(s)
  {
    if n < 10 then [Digit(n)] else NatToString(n / 10) + [Digit(n % 10)]
  }

  function IntToString(n: int): string
  {
    if n < 0 then "-" + NatToString(-n) else NatToString(n)
  }

  /** Reads a run of digits; leading zeros are harmless. */
  function ReadNat(s: string): nat
    requires AllDigits(s)
  {
    if s == "" then 0 else 10 * ReadNat(s[..|s| - 1]) + DigitValue(s[|s| - 1])
  }

  lemma {:induction false} ReadPrintedNat(n: nat)
    ensures ReadNat(NatToString(n)) == n
  {
    if n >= 10 {
      ReadPrintedNat(n / 10);
      var s := NatToString(n);
      assert s[..|s| - 1] == NatToString(n / 10);
    }
  }

  /** n < 10^k is printed with at most k digits. */
  lemma {:induction false} PrintedLength(n: nat, k: nat)
    requires k >= 1 && n < Pow10(k)
    ensures |NatToString(n)| <= k
  {
    if n >= 10 {
      assert k >= 2;
      PrintedLength(n / 10, k - 1);
    }
  }

  function Pow10(k: nat): nat { if k == 0 then 1 else 10 * Pow10(k - 1) }

  /** pad_with_zeros. */
  function Padded(s: string, expected: nat): string
  {
    if |s| < expected then Zeros(expected - |s|) + s else s
  }

  function Zeros(n: nat): (s: string)
    ensures |s| == n && AllDigits(s)
  {
    if n == 0 then "" else "0" + Zeros(n - 1)
  }

  lemma {:induction false} ReadZeros(n: nat, s: string)
    requires AllDigits(s)
    ensures AllDigits(Zeros(n) + s) && ReadNat(Zeros(n) + s) == ReadNat(s)
  {
    if s != "" {
      ReadZeros(n, s[..|s| - 1]);
      assert (Zeros(n) + s)[..|Zeros(n) + s| - 1] == Zeros(n) + s[..|s| - 1];
    } else if n > 0 {
      ReadZeros(n - 1, "");
      assert Zeros(n) == "0" + Zeros(n - 1);
      ZerosSnoc(n);
      assert Zeros(n) + s == Zeros(n);
      assert Zeros(n - 1) + "" == Zeros(n - 1);
      assert Zeros(n)[..n - 1] == Zeros(n - 1);
    } else {
      assert Zeros(n) + s == s;
    }
  }

  lemma {:induction false} ZerosSnoc(n: nat)
    requires n > 0
    ensures Zeros(n) == Zeros(n - 1) + "0"
  {
    if n > 1 {
      ZerosSnoc(n - 1);
    }
  }

  /** A padded number has exactly the expected width and still denotes the number. */
  lemma ReadPadded(n: nat, width: nat)
    requires width >= 1 && n < Pow10(width)
    ensures var s := Padded(NatToString(n), width);
            AllDigits(s) && |s| == width && ReadNat(s) == n
  {
    PrintedLength(n, width);
    ReadPrintedNat(n);
    ReadZeros(width - |NatToString(n)|, NatToString(n));
  }

  /** The inverse of IntToString. */
  function ReadInt(s: string): Option<int>
  {
    if s != "" && AllDigits(s) then Some(ReadNat(s))
    else if |s| > 1 && s[0] == '-' && AllDigits(s[1..]) then Some(0 - ReadNat(s[1..]))
    else None
  }

  lemma ReadPrintedInt(n: int)
    ensures ReadInt(IntToString(n)) == Some(n)
  {
    if n < 0 {
      ReadPrintedNat(-n);
      assert IntToString(n)[1..] == NatToString(-n);
      assert IntToString(n)[0] == '-';
    } else {
      ReadPrintedNat(n);
    }
  }
}
