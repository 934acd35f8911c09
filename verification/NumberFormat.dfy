/** Number formatting of the runtime's printf (sw/pulp-sdk/runtime/libs/io/tinyprintf.c):
    the digit loops, the field printer, and the reader of field widths. */
module NumberFormat {
  import opened Arith
  import opened Word32

  const TWO32: int := 0x1_0000_0000
  const TWO64: int := 0x1_0000_0000_0000_0000

  // The widths of the source's unsigned types.
  predicate Width(limit: int) { limit == TWO32 || limit == TWO64 }

  predicate Base(base: nat) { 8 <= base <= 16 }

  // ---------- Numbers and their digits ----------

  // The number that the digits, most significant first, stand for.
  function Value(ds: seq<nat>, base: nat): nat {
    if ds == [] then 0 else Value(ds[..|ds| - 1], base) * base + ds[|ds| - 1]
  }

  // Digits below the base, and no leading zero except in the number zero itself.
  predicate Proper(ds: seq<nat>, base: nat) {
    ds != [] && (forall i :: 0 <= i < |ds| ==> ds[i] < base) && (|ds| > 1 ==> ds[0] > 0)
  }

  function Power(base: nat, k: nat): nat {
    if k == 0 then 1 else Power(base, k - 1) * base
  }

  lemma {:induction false} PowerPositive(base: nat, k: nat)
    requires base > 0
    ensures Power(base, k) > 0
    decreases k
  {
    if k > 0 {
      PowerPositive(base, k - 1);
      MulMono(1, Power(base, k - 1), base);
    }
  }

  lemma {:induction false} PowerGrows(base: nat, j: nat, k: nat)
    requires base > 0 && j <= k
    ensures Power(base, j) <= Power(base, k)
    decreases k
  {
    if j < k {
      PowerGrows(base, j, k - 1);
      MulMono(1, base, Power(base, k - 1));
    }
  }

  // A proper numeral of k digits is at least base^(k-1), unless it is a single digit.
  lemma {:induction false} ValueAtLeast(ds: seq<nat>, base: nat)
    requires Base(base) && ds != [] && ds[0] > 0
    ensures Value(ds, base) >= Power(base, |ds| - 1)
    decreases |ds|
  {
    if |ds| > 1 {
      var front := ds[..|ds| - 1];
      ValueAtLeast(front, base);
      MulMono(Power(base, |front| - 1), Value(front, base), base);
    }
  }

  // Main result: a number has only one proper numeral.
  lemma {:induction false} NumeralIsUnique(a: seq<nat>, b: seq<nat>, base: nat)
    requires Base(base) && Proper(a, base) && Proper(b, base) && Value(a, base) == Value(b, base)
    ensures a == b
    decreases |a|
  {
    var n, m := |a| - 1, |b| - 1;
    DivMod(Value(a[..n], base), base, a[n]);
    DivMod(Value(b[..m], base), base, b[m]);
    assert a == a[..n] + [a[n]] && b == b[..m] + [b[m]];
    if n > 0 {
      ValueAtLeast(a[..n], base);
      PowerPositive(base, n - 1);
    }
    if m > 0 {
      ValueAtLeast(b[..m], base);
      PowerPositive(base, m - 1);
    }
    if n > 0 && m > 0 {
      NumeralIsUnique(a[..n], b[..m], base);
    }
  }

  // The digits of num in k places, by division by falling powers of the base.
  function Places(num: nat, base: nat, k: nat): seq<nat>
    requires base > 0
    decreases k
  {
    if k == 0 then [] else
      PowerPositive(base, k - 1);
      [num / Power(base, k - 1)] + Places(num % Power(base, k - 1), base, k - 1)
  }

  lemma {:induction false} ValueCons(d: nat, ds: seq<nat>, base: nat)
    ensures Value([d] + ds, base) == d * Power(base, |ds|) + Value(ds, base)
    decreases |ds|
  {
    if ds == [] {
      assert ([d] + ds)[..0] == [];
    } else {
      var n := |ds| - 1;
      ValueCons(d, ds[..n], base);
      assert ([d] + ds)[..|ds|] == [d] + ds[..n];
      Distribute(base, d * Power(base, n), Value(ds[..n], base));
      Associate(d, Power(base, n), base);
    }
  }

  lemma QuotientBelow(num: nat, p: nat, base: nat)
    requires p > 0 && num < p * base
    ensures num / p < base
  {
    if num / p >= base {
      MulMono(base, num / p, p);
    }
  }

  lemma {:induction false} PlacesValue(num: nat, base: nat, k: nat)
    requires base > 0 && num < Power(base, k)
    ensures |Places(num, base, k)| == k && Value(Places(num, base, k), base) == num
    ensures forall i :: 0 <= i < k ==> Places(num, base, k)[i] < base
    decreases k
  {
    if k > 0 {
      var p := Power(base, k - 1);
      PowerPositive(base, k - 1);
      PlacesValue(num % p, base, k - 1);
      QuotientBelow(num, p, base);
      AddPlace(num, base, p, num / p, Places(num % p, base, k - 1));
    }
  }

  lemma AddPlace(num: nat, base: nat, p: nat, d: nat, ds: seq<nat>)
    requires base > 0 && p == Power(base, |ds|) > 0 && d == num / p && Value(ds, base) == num % p
    ensures Value([d] + ds, base) == num
  {
    ValueCons(d, ds, base);
    DivisionIdentity(num, p);
  }

  lemma DivisionIdentity(num: nat, p: nat)
    requires p > 0
    ensures num / p * p + num % p == num
  {}

  // ---------- The digit loop ----------

  function DigitChar(d: nat, upper: bool): char
    requires d < 16
  {
    if d < 10 then '0' + d as char else (if upper then 'A' else 'a') + (d - 10) as char
  }

  lemma DigitChars(d: nat)
    requires d < 16
    ensures DigitChar(d, false) == "0123456789abcdef"[d] && DigitChar(d, true) == "0123456789ABCDEF"[d]
  {}

  function Text(ds: seq<nat>, upper: bool): string
    requires forall i :: 0 <= i < |ds| ==> ds[i] < 16
  {
    seq(|ds|, i requires 0 <= i < |ds| => DigitChar(ds[i], upper))
  }

  // Room for the digits of any number of that width, and for the final NUL.
  predicate Roomy(limit: int, room: nat) { if limit == TWO64 then room >= 23 else room >= 12 }

  // The most digits a number of that width has in any base from the given one on.
  function MostDigits(limit: int, base: nat): nat {
    if limit == TWO64 then (if base >= 16 then 16 else if base >= 10 then 20 else 22)
    else (if base >= 16 then 8 else if base >= 10 then 10 else 11)
  }

  lemma PowersOfEight()
    ensures Power(8, 11) >= TWO32 && Power(8, 22) >= TWO64
  {
    assert Power(8, 4) == 4096;
    assert Power(8, 8) == 4096 * 4096;
    assert Power(8, 11) == 4096 * 4096 * 512;
    assert Power(8, 15) == 4096 * 4096 * 512 * 4096;
    assert Power(8, 19) == 4096 * 4096 * 512 * 4096 * 4096;
    assert Power(8, 22) == 4096 * 4096 * 512 * 4096 * 4096 * 512;
  }

  lemma PowersOfTen()
    ensures Power(10, 10) >= TWO32 && Power(10, 20) >= TWO64
  {
    assert Power(10, 4) == 10000;
    assert Power(10, 8) == 10000 * 10000;
    assert Power(10, 10) == 10000 * 10000 * 100;
    assert Power(10, 14) == 10000 * 10000 * 100 * 10000;
    assert Power(10, 18) == 10000 * 10000 * 100 * 10000 * 10000;
    assert Power(10, 20) == 10000 * 10000 * 100 * 10000 * 10000 * 100;
  }

  lemma PowersOfSixteen()
    ensures Power(16, 8) >= TWO32 && Power(16, 16) >= TWO64
  {
    assert Power(16, 4) == 65536;
    assert Power(16, 8) == 65536 * 65536;
    assert Power(16, 12) == 65536 * 65536 * 65536;
    assert Power(16, 16) == 65536 * 65536 * 65536 * 65536;
  }

  lemma {:induction false} PowerOfBase(least: nat, base: nat, k: nat)
    requires 0 < least <= base
    ensures Power(base, k) >= Power(least, k)
    decreases k
  {
    if k > 0 {
      PowerOfBase(least, base, k - 1);
      MulMono(Power(least, k - 1), Power(base, k - 1), least);
      MulMono(least, base, Power(base, k - 1));
    }
  }

  lemma DigitBound(num: nat, least: nat, most: nat, base: nat, k: nat)
    requires 0 < least <= base && num < Power(least, most) && Power(base, k) <= num
    ensures k < most
  {
    PowerOfBase(least, base, k);
    if k >= most {
      PowerGrows(least, most, k);
    }
  }

  // A number of the given width has at most that many digits: k + 1 when base^k is at
  // most the number.
  lemma FewDigits(num: nat, limit: int, base: nat, k: nat)
    requires Width(limit) && Base(base) && num < limit && (k == 0 || Power(base, k) <= num)
    ensures k + 1 <= MostDigits(limit, base)
  {
    if k > 0 {
      var most := MostDigits(limit, base);
      if base >= 16 {
        PowersOfSixteen();
        DigitBound(num, 16, most, base, k);
      } else if base >= 10 {
        PowersOfTen();
        DigitBound(num, 10, most, base, k);
      } else {
        PowersOfEight();
        DigitBound(num, 8, most, base, k);
      }
    }
  }

  // The first loop: the highest power of the base that divides into num.  It never
  // overflows its word.
  method HighestPower(num: nat, limit: int, base: nat) returns (d: nat, ghost k: nat)
    requires Width(limit) && Base(base) && num < limit
    ensures d == Power(base, k) > 0 && num < Power(base, k + 1)
    ensures k > 0 ==> d <= num
    ensures d > 0 && num / d < base && (d > 1 ==> num / d > 0)
  {
    k, d := 0, 1;
    while num / d >= base
      invariant d == Power(base, k) > 0 && d < limit
      invariant k > 0 ==> d <= num
      decreases limit - d
    {
      NoOverflow(num, d, base, limit, Power(base, k + 1));
      d := d * base % limit;
      k := k + 1;
    }
    PowerBound(num, d, base);
    FirstDigit(num, d, k);
  }

  // ulli2a, uli2a and ui2a: the same loops over 64- and 32-bit words.  n is the number of
  // characters before the final NUL.  No division is by zero, and the numeral written is
  // the only proper one of that value.
  method ToText(num: nat, limit: int, base: nat, upper: bool, bf: array<char>) returns (n: nat, ghost ds: seq<nat>)
    requires Width(limit) && Base(base) && num < limit && Roomy(limit, bf.Length)
    modifies bf
    ensures Proper(ds, base) && Value(ds, base) == num && n == |ds| < bf.Length
    ensures bf[..n] == Text(ds, upper) && bf[n] == '\0' && n <= MostDigits(limit, base)
    ensures forall i :: n < i < bf.Length ==> bf[i] == old(bf[i])
  {
    var d;
    ghost var k;
    d, k := HighestPower(num, limit, base);
    PlacesValue(num, base, k + 1);
    FewDigits(num, limit, base, k);
    FirstDigit(num, d, k);
    ds := Places(num, base, k + 1);
    n := WriteDigits(num, d, base, upper, bf, k, ds);
  }

  // The second loop, from the power d = base^k on.
  method WriteDigits(num: nat, d0: nat, base: nat, upper: bool, bf: array<char>, ghost k: nat, ghost ds: seq<nat>)
    returns (n: nat)
    requires Base(base) && d0 == Power(base, k) > 0 && num < Power(base, k + 1) && k + 1 < bf.Length
    requires k > 0 ==> num / d0 > 0
    requires ds == Places(num, base, k + 1) && |ds| == k + 1
    requires forall i :: 0 <= i < |ds| ==> ds[i] < base
    modifies bf
    ensures n == k + 1 && bf[..n] == Text(ds, upper) && bf[n] == '\0'
    ensures forall i :: n < i < bf.Length ==> bf[i] == old(bf[i])
  {
    var d: nat, rest: nat := d0, num;
    n := 0;
    while d != 0
      invariant 0 <= n <= k + 1 && (d == 0 <==> n == k + 1)
      invariant n <= k ==> d == Power(base, k - n) && ds[n..] == Places(rest, base, k + 1 - n)
      invariant n == 0 ==> rest == num && d == d0
      invariant forall i :: 0 <= i < n ==> bf[i] == DigitChar(ds[i], upper)
      invariant forall i :: n <= i < bf.Length ==> bf[i] == old(bf[i])
      decreases k + 1 - n
    {
      NextPlace(ds, rest, base, k, n, d);
      var dgt := rest / d;
      rest := rest % d;
      d := d / base;
      if n > 0 || dgt > 0 || d == 0 {
        bf[n] := DigitChar(dgt, upper);
        n := n + 1;
      }
    }
    bf[n] := '\0';
  }

  // One turn of that loop takes the next place.
  lemma NextPlace(ds: seq<nat>, rest: nat, base: nat, k: nat, n: nat, d: nat)
    requires base > 1 && n <= k && |ds| == k + 1 && d == Power(base, k - n) > 0
    requires ds[n..] == Places(rest, base, k + 1 - n)
    ensures ds[n] == rest / d && ds[n + 1..] == Places(rest % d, base, k - n)
    ensures d / base == if n == k then 0 else Power(base, k - n - 1)
    ensures n < k ==> Power(base, k - n - 1) > 0
  {
    assert ds[n] == ds[n..][0] && ds[n + 1..] == ds[n..][1..];
    NextPower(base, k - n);
    if n < k {
      PowerPositive(base, k - n - 1);
    }
  }

  lemma NoOverflow(num: nat, d: nat, base: nat, limit: int, next: nat)
    requires d > 0 && base > 1 && num / d >= base && num < limit && next == d * base
    ensures d < next <= num && d * base % limit == next
  {
    MulMono(base, num / d, d);
    MulMono(2, base, d);
    SmallMod(next, limit);
  }

  lemma SmallMod(n: nat, limit: int)
    requires n < limit
    ensures n % limit == n
  {}

  lemma PowerBound(num: nat, d: nat, base: nat)
    requires d > 0 && num / d < base
    ensures num < d * base
  {
    MulMono(num / d + 1, base, d);
  }

  lemma FirstDigit(num: nat, d: nat, k: nat)
    requires d > 0 && (k > 0 ==> d <= num)
    ensures k > 0 ==> num / d > 0
  {}

  lemma NextPower(base: nat, j: nat)
    requires base > 1
    ensures Power(base, j) / base == if j == 0 then 0 else Power(base, j - 1)
  {
    if j > 0 {
      DivMod(Power(base, j - 1), base, 0);
    }
  }

  // i2a: negation wraps, and the most negative number still comes out right.
  method SignedToText(num: int, base: nat, upper: bool, bf: array<char>)
    returns (sign: bool, n: nat, ghost ds: seq<nat>)
    requires -HALF <= num < HALF && Base(base) && Roomy(TWO32, bf.Length)
    modifies bf
    ensures sign == (num < 0) && Proper(ds, base) && Value(ds, base) == (if num < 0 then -num else num)
    ensures n == |ds| < bf.Length && bf[..n] == Text(ds, upper) && bf[n] == '\0'
  {
    var magnitude := num;
    sign := false;
    if num < 0 {
      magnitude := Wrap(-num);
      sign := true;
    }
    n, ds := ToText(magnitude % TWO32, TWO32, base, upper, bf);
  }

  // ---------- The field printer ----------

  // The sign, if any, and the mark of the alternate form.
  function Marks(sign: string, alt: bool, base: nat, upper: bool): string {
    sign + if alt && base == 16 then (if upper then "0X" else "0x") else if alt && base == 8 then "0" else ""
  }

  // The mark is '0' and, at base 16, an 'x' of the case asked for.
  lemma MarkChars(sign: string, alt: bool, base: nat, upper: bool, marks: string)
    requires marks == Marks(sign, alt, base, upper)
    ensures |marks| == |sign| + (if alt && base == 16 then 2 else if alt && base == 8 then 1 else 0)
    ensures marks[..|sign|] == sign
    ensures |marks| > |sign| ==> marks[|sign|] == '0'
    ensures |marks| == |sign| + 2 ==> marks[|sign| + 1] == if upper then 'X' else 'x'
  {}

  // `out` is `front`, then n times c, then `back`.
  predicate Padded(out: string, front: string, c: char, n: nat, back: string) {
    && |out| == |front| + n + |back|
    && out[..|front|] == front && out[|front| + n..] == back
    && forall i :: |front| <= i < |front| + n ==> out[i] == c
  }

  // What a field of text and marks with `fill` characters of padding is: zeros go between
  // the marks and the text, spaces before both, or after both if it is aligned left.
  predicate IsField(out: string, text: string, marks: string, fill: nat, lz: bool, left: bool) {
    if lz then Padded(out, marks, '0', fill, text)
    else if left then Padded(out, marks + text, ' ', fill, "")
    else Padded(out, "", ' ', fill, marks + text)
  }

  // The padding putchw writes.  The count is a 32-bit int: a width from 2^31 on reads as
  // a negative number, from which the marks are still taken off.
  function Padding(width: nat, text: nat, marks: nat): nat
    requires marks <= 3
  {
    if width < HALF then (if width <= text + marks then 0 else width - text - marks)
    else if width < HALF + marks then width - marks
    else 0
  }

  function MarkCount(sign: string, alt: bool, base: nat): nat {
    |sign| + if alt && base == 16 then 2 else if alt && base == 8 then 1 else 0
  }

  // The decrements for sign and mark, each of which may wrap.
  method TakeMarks(n0: int, sign: string, alt: bool, base: nat) returns (n: int)
    requires |sign| <= 1 && -HALF <= n0 < HALF
    ensures n == Wrap(n0 - MarkCount(sign, alt, base))
  {
    n := n0;
    if sign != "" {
      WrapBelow(n - 1);
      n := Wrap(n - 1);
    }
    WrapBelow(n0 - MarkCount(sign, alt, base));
    if alt && base == 16 {
      WrapBelow(n - 2);
      n := Wrap(n - 2);
    } else if alt && base == 8 {
      WrapBelow(n - 1);
      n := Wrap(n - 1);
    }
  }

  // What is left of the width after the loop over the text, and then of the marks.
  lemma PaddingLeft(width: nat, text: nat, marks: nat, n0: int, n: int)
    requires width < TWO32 && marks <= 3
    requires n0 == if width >= HALF then width - TWO32 else if width < text then 0 else width - text
    requires n == Wrap(n0 - marks)
    ensures Padding(width, text, marks) == if n > 0 then n else 0
  {
    WrapBelow(n0 - marks);
  }

  // putchw: text is the buffer up to its NUL, sign is empty or one character.
  method PrintField(text: string, width: nat, sign: string, alt: bool, base: nat, upper: bool, lz: bool, left: bool)
    returns (out: string)
    requires |sign| <= 1 && width < TWO32
    ensures var marks := Marks(sign, alt, base, upper);
      var fill := Padding(width, |text|, |marks|);
      && (lz ==> Padded(out, marks, '0', fill, text))
      && (!lz && !left ==> Padded(out, "", ' ', fill, marks + text))
      && (!lz && left ==> Padded(out, marks + text, ' ', fill, ""))
  {
    var n, i := Wrap(width), 0;
    while i < |text| && n > 0
      invariant 0 <= i <= |text|
      invariant n == Wrap(width) - i && (if Wrap(width) >= 0 then n >= 0 else i == 0)
    {
      n := n - 1;
      i := i + 1;
    }
    ghost var n0 := n;
    n := TakeMarks(n, sign, alt, base);
    PaddingLeft(width, |text|, MarkCount(sign, alt, base), n0, n);
    out := Emit(text, sign, alt, base, upper, n, lz, left);
  }

  // Main result on the width: below 2^31 the field is as wide as asked, or as its text
  // and marks need; from there on it is exactly text and marks, if and only if the width
  // is at least 2^31 plus the marks.
  lemma FieldWidth(out: string, text: string, marks: string, width: nat, lz: bool, left: bool)
    requires |marks| <= 3 && IsField(out, text, marks, Padding(width, |text|, |marks|), lz, left)
    ensures width < HALF ==> |out| == Max(width, |text| + |marks|)
    ensures width >= HALF ==> (|out| == |text| + |marks| <==> width >= HALF + |marks|)
    ensures HALF <= width < HALF + |marks| ==> |out| == width + |text|
  {}

  // The output statements of putchw, with room for n more characters.
  method Emit(text: string, sign: string, alt: bool, base: nat, upper: bool, n: int, lz: bool, left: bool)
    returns (out: string)
    ensures IsField(out, text, Marks(sign, alt, base, upper), if n > 0 then n else 0, lz, left)
  {
    out := "";
    if !lz && !left {
      out := Fill(out, ' ', n);
    }
    out := PrintMarks(out, sign, alt, base, upper);
    if lz {
      out := Fill(out, '0', n);
    }
    out := out + text;
    if !lz && left {
      out := Fill(out, ' ', n);
    }
  }

  method PrintMarks(before: string, sign: string, alt: bool, base: nat, upper: bool) returns (out: string)
    ensures out == before + Marks(sign, alt, base, upper)
  {
    out := before + sign;
    if alt && base == 16 {
      out := out + ['0'];
      out := out + [if upper then 'X' else 'x'];
    } else if alt && base == 8 {
      out := out + ['0'];
    }
  }

  function Max(a: int, b: int): int { if a < b then b else a }

  // while (n-- > 0) putf(c)
  method Fill(before: string, c: char, n0: int) returns (out: string)
    ensures Padded(out, before, c, if n0 > 0 then n0 else 0, "")
  {
    var n := n0;
    out := before;
    while n > 0
      invariant if n0 > 0 then 0 <= n <= n0 else n == n0
      invariant Padded(out, before, c, n0 - n, "")
    {
      n := n - 1;
      out := out + [c];
    }
  }

  // ---------- Reading a number back ----------

  function DigitOf(ch: char): int {
    if '0' <= ch <= '9' then ch as int - '0' as int
    else if 'a' <= ch <= 'f' then ch as int - 'a' as int + 10
    else if 'A' <= ch <= 'F' then ch as int - 'A' as int + 10
    else -1
  }

  // The loop of a2u goes on over digits up to and including the base.
  predicate Accepts(ch: char, base: nat) { 0 <= DigitOf(ch) <= base }

  lemma AcceptsExactly(ch: char, base: nat)
    requires Base(base)
    ensures Accepts(ch, base) <==>
      exists d :: 0 <= d < 16 && d <= base && (DigitChar(d, false) == ch || DigitChar(d, true) == ch)
    ensures Accepts(ch, 10) <==> ch in "0123456789aA"
  {
    if Accepts(ch, base) {
      var d := DigitOf(ch);
      assert DigitChar(d, false) == ch || DigitChar(d, true) == ch;
    }
    if d :| 0 <= d < 16 && d <= base && (DigitChar(d, false) == ch || DigitChar(d, true) == ch) {
      CharOfDigit(d, false);
      CharOfDigit(d, true);
    }
  }

  // How many characters it takes, and the number it makes of them.
  function Taken(s: string, base: nat): (k: nat)
    ensures k <= |s|
    ensures forall i :: 0 <= i < k ==> Accepts(s[i], base)
    ensures k < |s| ==> !Accepts(s[k], base)
  {
    if s == [] || !Accepts(s[0], base) then 0 else 1 + Taken(s[1..], base)
  }

  function DigitAt(s: string, base: nat, i: nat): nat
    requires i < |s| && Accepts(s[i], base)
  {
    DigitOf(s[i])
  }

  function Digits(s: string, base: nat): (ds: seq<nat>)
    requires forall i :: 0 <= i < |s| ==> Accepts(s[i], base)
    ensures |ds| == |s|
  {
    seq(|s|, i requires 0 <= i < |s| => DigitAt(s, base, i))
  }

  // s[pos..] is what is left of a NUL-terminated string; ch was read just before it.
  method ReadNumber(ch: char, s: string, pos: nat, base: nat) returns (stop: char, end: nat, num: nat)
    requires pos <= |s| && Accepts(ch, base) ==> exists i :: pos <= i < |s| && s[i] == '\0'
    requires pos <= |s|
    ensures var all := [ch] + s[pos..];
      var k := Taken(all, base);
      && k < |all| && stop == all[k] && end == pos + k
      && num == Value(Digits(all[..k], base), base) % TWO32
  {
    ghost var all := [ch] + s[pos..];
    ghost var k := 0;
    stop, end, num := ch, pos, 0;
    while DigitOf(stop) >= 0
      invariant k < |all| && stop == all[k] && end == pos + k
      invariant forall i :: 0 <= i < k ==> Accepts(all[i], base)
      invariant num == Value(Digits(all[..k], base), base) % TWO32
      invariant Accepts(stop, base) ==> exists i :: end <= i < |s| && s[i] == '\0'
      decreases |all| - k
    {
      var digit := DigitOf(stop);
      if digit > base {
        break;
      }
      ghost var ds := Digits(all[..k + 1], base);
      assert ds[..k] == Digits(all[..k], base) && ds[k] == digit;
      WrapStep(Value(ds[..k], base), base, digit);
      num := (num * base + digit) % TWO32;
      stop := s[end];
      end := end + 1;
      k := k + 1;
    }
    TakenIs(all, base, k);
  }

  lemma WrapStep(v: nat, base: nat, d: nat)
    ensures (v % TWO32 * base + d) % TWO32 == (v * base + d) % TWO32
  {
    var q := v / TWO32;
    assert v == q * TWO32 + v % TWO32;
    assert v * base == q * base * TWO32 + v % TWO32 * base;
    ModShift(v % TWO32 * base + d, q * base);
  }

  lemma ModShift(x: nat, q: nat)
    ensures (x + q * TWO32) % TWO32 == x % TWO32
  {}

  lemma {:induction false} TakenIs(s: string, base: nat, k: nat)
    requires k < |s| && !Accepts(s[k], base) && forall i :: 0 <= i < k ==> Accepts(s[i], base)
    ensures Taken(s, base) == k
    decreases k
  {
    if k > 0 {
      TakenIs(s[1..], base, k - 1);
    }
  }

  // Main result: a numeral followed by `after` is read back, all of it and nothing more,
  // exactly when the reader would not go on over the next character.  At base 10 that
  // excludes the ten digits and also 'a' and 'A'.
  lemma RoundTrip(ds: seq<nat>, base: nat, upper: bool, after: string)
    requires Base(base) && Proper(ds, base) && Value(ds, base) < TWO32 && after != ""
    ensures var s := Text(ds, upper) + after;
      var k := Taken(s, base);
      && (k == |ds| <==> !Accepts(after[0], base))
      && (k == |ds| ==> Value(Digits(s[..k], base), base) % TWO32 == Value(ds, base))
  {
    var s := Text(ds, upper) + after;
    TextIsRead(ds, base, upper, after);
    assert s[|ds|] == after[0];
    if !Accepts(after[0], base) {
      TakenIs(s, base, |ds|);
    }
  }

  lemma TextIsRead(ds: seq<nat>, base: nat, upper: bool, after: string)
    requires Base(base) && forall i :: 0 <= i < |ds| ==> ds[i] < base
    ensures var s := Text(ds, upper) + after;
      && (forall i :: 0 <= i < |ds| ==> Accepts(s[i], base))
      && Digits(s[..|ds|], base) == ds
  {
    forall i | 0 <= i < |ds|
      ensures Accepts(Text(ds, upper)[i], base) && DigitOf(Text(ds, upper)[i]) == ds[i]
    {
      CharOfDigit(ds[i], upper);
    }
  }

  lemma CharOfDigit(d: nat, upper: bool)
    requires d < 16
    ensures DigitOf(DigitChar(d, upper)) == d
  {}

  // The base is taken for a digit: "7a" reads as 80 at base 10.
  lemma LetterReadAsTen()
    ensures Taken("7a;", 10) == 2 && Value(Digits("7a", 10), 10) == 80
  {
    TakenIs("7a;", 10, 2);
    var ds := Digits("7a", 10);
    assert ds == [7, 10] && ds[..1] == [7] && [7][..0] == [];
    assert Value([7], 10) == 7;
  }
}
