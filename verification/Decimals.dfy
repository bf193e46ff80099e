/** Numbers to the millisecond, printed and read in decimal: printers and parsers as the playlist results ask for exist. */
module Decimals {
  import opened Wrappers
  import opened PlaylistText

  function Print(k: nat): (s: string)
    ensures s != "" && forall c <- s :: IsDigit(c)
  {
    if k < 10 then [Digit(k)] else Print(k / 10) + [Digit(k % 10)]
  }

  predicate AllDigits(s: string) {
    s != "" && forall c <- s :: IsDigit(c)
  }

  function Read(s: string): nat
    requires AllDigits(s)
  {
    assert s[|s| - 1] in s;
    if |s| == 1 then DigitOf(s[0]) else Read(s[..|s| - 1]) * 10 + DigitOf(s[|s| - 1])
  }

  lemma {:induction false} ReadPrints(k: nat)
    ensures Read(Print(k)) == k
  {
    if k >= 10 {
      ReadPrints(k / 10);
      assert Print(k)[..|Print(k)| - 1] == Print(k / 10);
    }
  }

  /** A point and three digits at the end. */
  predicate Pointed(s: string) {
    |s| > 4 && s[|s| - 4] == '.' && AllDigits(s[..|s| - 4]) && AllDigits(s[|s| - 3..])
  }

  function Pad3(f: nat): (s: string)
    requires f < 1000
    ensures |s| == 3 && AllDigits(s)
  {
    [Digit(f / 100), Digit(f / 10 % 10), Digit(f % 10)]
  }

  lemma ReadThree(a: char, b: char, c: char)
    requires IsDigit(a) && IsDigit(b) && IsDigit(c)
    ensures AllDigits([a, b, c]) && Read([a, b, c]) == DigitOf(a) * 100 + DigitOf(b) * 10 + DigitOf(c)
  {
    assert [a, b, c][..2] == [a, b] && [a, b][..1] == [a];
    assert Read([a]) == DigitOf(a);
    assert Read([a, b]) == Read([a]) * 10 + DigitOf(b);
    assert Read([a, b, c]) == Read([a, b]) * 10 + DigitOf(c);
  }

  lemma ReadPad3(f: nat)
    requires f < 1000
    ensures Read(Pad3(f)) == f
  {
    ReadThree(Digit(f / 100), Digit(f / 10 % 10), Digit(f % 10));
  }

  function Seconds(whole: nat, milliseconds: nat): real {
    (1000 * whole + milliseconds) as real / 1000.0
  }

  /** Whole milliseconds. */
  predicate Known(x: real) {
    x >= 0.0 && (x * 1000.0).Floor as real == x * 1000.0
  }

  function Milliseconds(x: real): (k: nat)
    requires x >= 0.0
  {
    (x * 1000.0).Floor
  }

  function ParseNumber(s: string): Option<real> {
    if Pointed(s) then Some(Seconds(Read(s[..|s| - 4]), Read(s[|s| - 3..])))
    else if AllDigits(s) then Some(Read(s) as real)
    else None
  }

  function Render(x: real): string {
    if x < 0.0 then "" else Print(Milliseconds(x) / 1000) + "." + Pad3(Milliseconds(x) % 1000)
  }

  const MILLISECONDS: Numbers := Numbers(x => Known(x), s => ParseNumber(s), x => Render(x), (k: nat) => Print(k))

  lemma MillisecondsKnown(m: nat, x: real)
    requires x * 1000.0 == m as real
    ensures Known(x)
  {}

  lemma ParsedIsKnown(s: string)
    requires ParseNumber(s).Some?
    ensures Known(ParseNumber(s).value)
  {
    if Pointed(s) {
      MillisecondsKnown(1000 * Read(s[..|s| - 4]) + Read(s[|s| - 3..]), ParseNumber(s).value);
    } else {
      MillisecondsKnown(Read(s) * 1000, ParseNumber(s).value);
    }
  }

  lemma DigitsAreTight(s: string)
    requires s != "" && IsDigit(s[0]) && IsDigit(s[|s| - 1])
    ensures Tight(s)
  {}

  lemma RenderReads(x: real)
    requires Known(x)
    ensures ParseNumber(Render(x)) == Some(x) && Tight(Render(x)) && ',' !in Render(x)
  {
    var m := Milliseconds(x);
    var a, b := Print(m / 1000), Pad3(m % 1000);
    var s := Render(x);
    assert s == a + "." + b;
    assert s[..|s| - 4] == a && s[|s| - 3..] == b && s[|s| - 4] == '.';
    ReadPrints(m / 1000);
    ReadPad3(m % 1000);
    assert Pointed(s);
    assert x == Seconds(m / 1000, m % 1000);
    assert s[0] == a[0] && a[0] in a && s[|s| - 1] == b[2] && b[2] in b;
    DigitsAreTight(s);
    forall c <- s
      ensures c != ','
    {
      assert c in a || c == '.' || c in b;
    }
  }

  lemma PrintReads(k: nat)
    ensures ParseNumber(Print(k)) == Some(k as real) && Tight(Print(k))
  {
    var s := Print(k);
    ReadPrints(k);
    assert s[0] in s && s[|s| - 1] in s;
    if |s| > 4 {
      assert s[|s| - 4] in s;
    }
    DigitsAreTight(s);
  }

  /** Durations to the millisecond and whole targets meet what the playlist results ask of numbers. */
  lemma MillisecondsAreFaithful()
    ensures Faithful(MILLISECONDS)
  {
    forall s: string | ParseNumber(s).Some?
      ensures Known(ParseNumber(s).value)
    {
      ParsedIsKnown(s);
    }
    forall x: real | Known(x)
      ensures ParseNumber(Render(x)) == Some(x) && Tight(Render(x)) && ',' !in Render(x)
    {
      RenderReads(x);
    }
    forall k: nat
      ensures ParseNumber(Print(k)) == Some(k as real) && Tight(Print(k))
    {
      PrintReads(k);
    }
  }
}
