/** `parse_int`: an integer literal of any length, accumulated in small chunks
    so that no single conversion sees the whole digit string. */
module ChunkedInt {
  import opened Decimal

  const INT_CHUNK_DIGITS := 200

  /** A JSON integer literal: digits with an optional leading minus. */
  predicate IsLiteral(text: string) {
    AllDigits(Digits(text))
  }

  predicate Negative(text: string) {
    text != [] && text[0] == '-'
  }

  function Digits(text: string): string {
    if Negative(text) then text[1..] else text
  }

  function LiteralValue(text: string): int
    requires IsLiteral(text)
  {
    var magnitude: int := Value(Digits(text));
    if Negative(text) then -magnitude else magnitude
  }

  /** A printed number is read as itself, and as its opposite after a minus. */
  lemma LiteralReadsBack(n: nat)
    ensures IsLiteral(Print(n)) && LiteralValue(Print(n)) == n
    ensures IsLiteral("-" + Print(n)) && LiteralValue("-" + Print(n)) + n == 0
  {
    assert ("-" + Print(n))[1..] == Print(n);
    assert IsDigit(Print(n)[0]);
  }

  method PowerOfTen(k: nat) returns (p: nat)
    ensures p == Pow10(k)
  {
    p := 1;
    for i := 0 to k
      invariant p == Pow10(i)
    {
      p := p * 10;
    }
  }

  /** Whatever the chunk width, the accumulated value is the ordinary decimal one. */
  method ParseIntInChunks(text: string, width: nat) returns (value: int)
    requires IsLiteral(text) && width > 0
    ensures value == LiteralValue(text)
  {
    var digits := Digits(text);
    value := 0;
    var start := 0;
    while start < |digits|
      invariant start <= |digits|
      invariant value == Value(digits[..start])
    {
      var stop := if start + width < |digits| then start + width else |digits|;
      var chunk := digits[start..stop];
      var scale := PowerOfTen(|chunk|);
      ValueOfConcat(digits[..start], chunk);
      assert digits[..start] + chunk == digits[..stop];
      value := value * scale + Value(chunk);
      start := stop;
    }
    assert digits[..|digits|] == digits;
    if Negative(text) {
      value := -value;
    }
  }

  method ParseInt(text: string) returns (value: int)
    requires IsLiteral(text)
    ensures value == LiteralValue(text)
  {
    value := ParseIntInChunks(text, INT_CHUNK_DIGITS);
  }
}
