/** Text as the database stores and compares it: SQLite's default collation compares TEXT
    values byte by byte, which on the ASCII texts of this program is the order of characters. */
module Text {

  datatype Option<+T> = None | Some(value: T) {
    predicate IsFailure() {
      None?
    }

    function PropagateFailure<U>(): Option<U>
      requires None?
    {
      None
    }

    function Extract(): T
      requires Some?
    {
      value
    }
  }

  /** `a` sorts strictly before `b`. */
  predicate Less(a: string, b: string) {
    b != [] && (a == [] || a[0] < b[0] || (a[0] == b[0] && Less(a[1..], b[1..])))
  }

  /** `a <= b`, as a SQL comparison between two TEXT values. */
  predicate Leq(a: string, b: string) {
    !Less(b, a)
  }

  lemma {:induction false} LessIrreflexive(a: string)
    ensures !Less(a, a)
  {
    if a != [] {
      LessIrreflexive(a[1..]);
    }
  }

  lemma {:induction false} LessTransitive(a: string, b: string, c: string)
    requires Less(a, b) && Less(b, c)
    ensures Less(a, c)
  {
    if a != [] && a[0] == b[0] && b[0] == c[0] {
      LessTransitive(a[1..], b[1..], c[1..]);
    }
  }

  /** Text order is total: of two different texts exactly one comes first. */
  lemma {:induction false} LessTotal(a: string, b: string)
    ensures a == b <==> !Less(a, b) && !Less(b, a)
    ensures !(Less(a, b) && Less(b, a))
  {
    if a != [] && b != [] && a[0] == b[0] {
      LessTotal(a[1..], b[1..]);
      assert a == [a[0]] + a[1..] && b == [b[0]] + b[1..];
    } else if a == b {
      LessIrreflexive(a);
    }
  }

  lemma LeqTransitive(a: string, b: string, c: string)
    requires Leq(a, b) && Leq(b, c)
    ensures Leq(a, c)
  {
    LessTotal(a, b);
    LessTotal(b, c);
    if Less(c, a) {
      if a == b {
      } else {
        LessTransitive(c, a, b);
      }
    }
  }

  lemma LessLeq(a: string, b: string, c: string)
    requires Less(a, b) && Leq(b, c)
    ensures Less(a, c)
  {
    LessTotal(b, c);
    if b != c {
      LessTransitive(a, b, c);
    }
  }

  /** Texts made of a block of fixed width and a rest compare block first, then rest. */
  lemma {:induction false} LessBlocks(a: string, b: string, x: string, y: string)
    requires |a| == |b|
    ensures Less(a + x, b + y) <==> Less(a, b) || (a == b && Less(x, y))
  {
    if a == [] {
      assert a + x == x && b + y == y;
    } else {
      assert (a + x)[1..] == a[1..] + x && (b + y)[1..] == b[1..] + y;
      LessBlocks(a[1..], b[1..], x, y);
      assert a == [a[0]] + a[1..] && b == [b[0]] + b[1..];
    }
  }

  // ---------------------------------------------------------------- decimal numerals

  function Digit(d: nat): char
    requires d < 10
  {
    ('0' as int + d) as char
  }

  predicate IsDigit(c: char) {
    '0' <= c <= '9'
  }

  function DigitValue(c: char): nat
    requires IsDigit(c)
  {
    c as int - '0' as int
  }

  function Pow10(k: nat): nat
  {
    if k == 0 then 1 else 10 * Pow10(k - 1)
  }

  /** The last `width` decimal digits of `n`, padded with zeros on the left. */
  function Pad(n: nat, width: nat): (s: string)
    ensures |s| == width
    ensures forall k :: 0 <= k < width ==> IsDigit(s[k])
  {
    if width == 0 then "" else Pad(n / 10, width - 1) + [Digit(n % 10)]
  }

  /** The decimal numeral of `n` without padding. */
  function Decimal(n: nat): string
  {
    if n < 10 then [Digit(n)] else Decimal(n / 10) + [Digit(n % 10)]
  }

  predicate AllDigits(s: string) {
    forall k :: 0 <= k < |s| ==> IsDigit(s[k])
  }

  function NumberOf(s: string): nat
    requires AllDigits(s)
  {
    if s == [] then 0 else 10 * NumberOf(s[..|s| - 1]) + DigitValue(s[|s| - 1])
  }

  /** A padded numeral reads back as the number, and the number of a digit string prints
      as that string. */
  lemma {:induction false} PadReads(n: nat, width: nat)
    requires n < Pow10(width)
    ensures NumberOf(Pad(n, width)) == n
  {
    if width > 0 {
      PadReads(n / 10, width - 1);
      var s := Pad(n, width);
      assert s[..|s| - 1] == Pad(n / 10, width - 1);
    }
  }

  lemma {:induction false} PadPrints(s: string)
    requires AllDigits(s)
    ensures NumberOf(s) < Pow10(|s|) && Pad(NumberOf(s), |s|) == s
  {
    if s != [] {
      var p := s[..|s| - 1];
      PadPrints(p);
      assert NumberOf(s) / 10 == NumberOf(p) && NumberOf(s) % 10 == DigitValue(s[|s| - 1]);
      assert s == p + [s[|s| - 1]];
    }
  }

  /** On numbers that fit, padded numerals of one width compare as the numbers do. */
  lemma {:induction false} PadOrder(m: nat, n: nat, width: nat)
    requires m < Pow10(width) && n < Pow10(width)
    ensures Less(Pad(m, width), Pad(n, width)) <==> m < n
    ensures Pad(m, width) == Pad(n, width) <==> m == n
  {
    if width > 0 {
      var (a, b) := (Pad(m / 10, width - 1), Pad(n / 10, width - 1));
      var (x, y) := ([Digit(m % 10)], [Digit(n % 10)]);
      PadOrder(m / 10, n / 10, width - 1);
      LessBlocks(a, b, x, y);
      assert Less(x, y) <==> m % 10 < n % 10;
      assert (a + x)[width - 1] == x[0] && (b + y)[width - 1] == y[0];
      assert (a + x)[..width - 1] == a && (b + y)[..width - 1] == b;
    } else {
      LessIrreflexive("");
    }
  }

  // ---------------------------------------------------------------- letter case and addresses

  function LowerChar(c: char): char {
    if 'A' <= c <= 'Z' then (c as int + 32) as char else c
  }

  function Lower(s: string): string {
    seq(|s|, i requires 0 <= i < |s| => LowerChar(s[i]))
  }

  /** The text after the last '@', or the whole text if there is none. */
  function AfterAt(s: string): string {
    if '@' !in s then s
    else if s[|s| - 1] == '@' then ""
    else AfterAt(s[..|s| - 1]) + [s[|s| - 1]]
  }
}
