/** Numerals of a fixed width in base ten or sixteen, written and read digit by digit. */
module Numerals {
  import opened Outcomes

  datatype Base = Ten | Sixteen {
    function Size(): nat {
      if Ten? then 10 else 16
    }

    function Times(q: nat): (r: nat)
      ensures r == q * Size()
    {
      if Ten? then 10 * q else 16 * q
    }

    function Over(n: nat): nat {
      if Ten? then n / 10 else n / 16
    }

    function Rest(n: nat): (d: nat)
      ensures d < Size() && Times(Over(n)) + d == n
    {
      if Ten? then n % 10 else n % 16
    }

    /** How many numbers have a numeral of `width` symbols. */
    function Capacity(width: nat): (r: nat)
      ensures r > 0
    {
      if width == 0 then 1 else Times(Capacity(width - 1))
    }
  }

  function Symbol(d: nat): char
    requires d < 16
  {
    "0123456789abcdef"[d]
  }

  /** The digit a symbol stands for; letters of either case stand for ten to fifteen. */
  function DigitOf(c: char): Option<nat> {
    if '0' <= c <= '9' then Some(c as int - '0' as int)
    else if 'a' <= c <= 'f' then Some(c as int - 'a' as int + 10)
    else if 'A' <= c <= 'F' then Some(c as int - 'A' as int + 10)
    else None
  }

  lemma SymbolDigit(d: nat)
    requires d < 16
    ensures DigitOf(Symbol(d)) == Some(d)
  {}

  predicate IsDigit(c: char, base: Base) {
    DigitOf(c).Some? && DigitOf(c).value < base.Size()
  }

  predicate IsNumeral(s: string, base: Base) {
    forall i | 0 <= i < |s| :: IsDigit(s[i], base)
  }

  /** The last `width` digits of n, most significant first. */
  function Numeral(n: nat, base: Base, width: nat): (s: string)
    ensures |s| == width && IsNumeral(s, base)
  {
    if width == 0 then ""
    else
      SymbolDigit(base.Rest(n));
      Numeral(base.Over(n), base, width - 1) + [Symbol(base.Rest(n))]
  }

  function Value(s: string, base: Base): nat
    requires IsNumeral(s, base)
  {
    if s == "" then 0 else base.Times(Value(s[..|s| - 1], base)) + DigitOf(s[|s| - 1]).value
  }

  function ReadNumeral(s: string, base: Base): Option<nat> {
    if IsNumeral(s, base) then Some(Value(s, base)) else None
  }

  lemma ValueAppend(hi: string, d: nat, base: Base)
    requires IsNumeral(hi, base) && d < base.Size()
    ensures IsNumeral(hi + [Symbol(d)], base)
    ensures Value(hi + [Symbol(d)], base) == base.Times(Value(hi, base)) + d
  {
    SymbolDigit(d);
    var s := hi + [Symbol(d)];
    assert s[..|s| - 1] == hi;
  }

  lemma OverFits(n: nat, base: Base, width: nat)
    requires width > 0 && n < base.Capacity(width)
    ensures base.Over(n) < base.Capacity(width - 1)
  {
    assert base.Capacity(width) == base.Times(base.Capacity(width - 1));
  }

  lemma {:induction false} ValueOfNumeral(n: nat, base: Base, width: nat)
    requires n < base.Capacity(width)
    ensures Value(Numeral(n, base, width), base) == n
  {
    if width == 0 {
      assert Numeral(n, base, 0) == "";
    } else {
      var over, rest := base.Over(n), base.Rest(n);
      var hi := Numeral(over, base, width - 1);
      OverFits(n, base, width);
      ValueOfNumeral(over, base, width - 1);
      ValueAppend(hi, rest, base);
      assert Numeral(n, base, width) == hi + [Symbol(rest)];
      assert base.Times(over) + rest == n;
    }
  }

  lemma ReadOfNumeral(n: nat, base: Base, width: nat)
    requires n < base.Capacity(width)
    ensures ReadNumeral(Numeral(n, base, width), base) == Some(n)
  {
    ValueOfNumeral(n, base, width);
  }
}
