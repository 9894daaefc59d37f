/** The helpers of folding and of evaluation, by what they compute: bitwise operators bit by bit,
    the text of a number, and the length of text in UTF-8. */
module Numerals {
  import opened Ast
  import opened Integers
  import opened Meaning

  // ---------------------------------------------------------------- bits

  /** What an operator makes of two bits. */
  predicate Combines(op: BinaryOp, a: bool, b: bool)
    requires IsBitOp(op)
  {
    match op
    case BitAnd => a && b
    case BitOr => a || b
    case _ => a != b
  }

  lemma {:induction false} BitsAt(op: BinaryOp, a: nat, b: nat, width: nat, k: nat)
    requires IsBitOp(op)
    ensures BitsOf(op, a, b, width) < Power(width)
    ensures BitAt(BitsOf(op, a, b, width), k) <==> k < width && Combines(op, BitAt(a, k), BitAt(b, k))
    decreases width
  {
    hide BitAt, Power;
    if width == 0 {
      ZeroHasNoBits(k);
      PowerIs(0);
    } else {
      var n := BitsOf(op, a, b, width);
      PowerIs(width - 1);
      HalfBits(a, if k == 0 then 0 else k - 1);
      HalfBits(b, if k == 0 then 0 else k - 1);
      HalfBits(n, if k == 0 then 0 else k - 1);
      BitsAt(op, a / 2, b / 2, width - 1, if k == 0 then 0 else k - 1);
    }
  }

  lemma {:induction false} WordIsPower()
    ensures Power(64) == WORD
  {
    assert Power(8) == 256;
    PowerAdds(8, 8);
    PowerAdds(16, 16);
    PowerAdds(32, 32);
  }

  /** Bitwise operators act on each of the 64 bits of the two's complement. */
  lemma BitOpActsOnBits(op: BinaryOp, a: int, b: int, k: nat)
    requires IsBitOp(op) && k < 64
    ensures IsI64(BitOp(op, a, b))
    ensures BitAt(BitOp(op, a, b) % WORD, k) <==> Combines(op, BitAt(a % WORD, k), BitAt(b % WORD, k))
  {
    hide BitAt;
    var n := BitsOf(op, a % WORD, b % WORD, 64);
    BitsAt(op, a % WORD, b % WORD, 64, k);
    WordIsPower();
    WrapKeepsPattern(n);
  }

  lemma WrapKeepsPattern(n: nat)
    requires n < WORD
    ensures IsI64(Wrap64(n)) && Wrap64(n) % WORD == n
  {
    WrapIsI64(n);
    assert Wrap64(n) == if n < WORD / 2 then n else n - WORD;
  }

  // ---------------------------------------------------------------- text

  /** The number that decimal digits spell. */
  function ReadDigits(s: string): int {
    if s == "" then 0 else 10 * ReadDigits(s[..|s| - 1]) + (s[|s| - 1] as int - '0' as int)
  }

  function ReadInt(s: string): int { if s != "" && s[0] == '-' then -ReadDigits(s[1..]) else ReadDigits(s) }

  lemma {:induction false} DigitsRead(n: nat)
    ensures ReadDigits(Digits(n)) == n && Digits(n) != "" && Digits(n)[0] != '-'
    decreases n
  {
    var d := Digits(n);
    if n < 10 {
      assert d[..0] == "";
    } else {
      DigitsRead(n / 10);
      assert d[..|d| - 1] == Digits(n / 10);
    }
  }

  /** The text of a number reads back as the number. */
  lemma IntTextReads(n: int)
    ensures ReadInt(IntText(n)) == n
  {
    DigitsRead(Abs(n));
    if n < 0 { assert IntText(n)[1..] == Digits(-n); }
  }

  /** How many bits of a code point fit in so many bytes of UTF-8. */
  function Payload(width: nat): nat { if width == 1 then 7 else 5 * width + 1 }

  /** A character takes the fewest bytes that hold its code point. */
  lemma WidthIsLeast(c: char, width: nat)
    requires 1 <= width <= 4
    ensures Utf8Width(c) <= width <==> (c as int) < Power(Payload(width))
  {
    assert Power(7) == 0x80;
    PowerAdds(7, 4);
    PowerAdds(11, 5);
    PowerAdds(16, 5);
    assert Power(4) == 16 && Power(5) == 32;
    CodePointsAreSmall(c);
  }

  lemma CodePointsAreSmall(c: char)
    ensures (c as int) < 0x11_0000
  {
  }
}
