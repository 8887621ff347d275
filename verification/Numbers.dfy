/** Number printing (printnum) and reading (strtol), and that reading undoes printing. */
module Numbers {
  import opened Ints

  // "0123456789abcdef"[d]
  function DigitChar(d: int): char
    requires 0 <= d < 16
  {
    if d < 10 then '0' + d as char else 'a' + (d - 10) as char
  }

  predicate GoodBase(base: int) { base == 8 || base == 10 || base == 16 }

  function Digits(num: nat, base: int): (s: string)
    requires 2 <= base <= 16
    ensures |s| >= 1
    decreases num
  {
    if num >= base then Shrinks(num, base); Digits(num / base, base) + [DigitChar(num % base)]
    else [DigitChar(num)]
  }

  lemma Shrinks(num: nat, base: int)
    requires 2 <= base <= 16 && num >= base
    ensures 0 <= num / base < num && 0 <= num % base < base
  {
  }

  function Repeat(c: char, n: int): (s: string)
    ensures |s| == if n > 0 then n else 0
  {
    if n <= 0 then [] else Repeat(c, n - 1) + [c]
  }

  // What printnum emits
  function Printed(num: nat, base: int, width: int, padc: char): string
    requires 2 <= base <= 16
  {
    Repeat(padc, width - |Digits(num, base)|) + Digits(num, base)
  }

  /** printnum, appending to what putch has been given so far */
  method PrintNum(out0: string, num: nat, base: int, width: int, padc: char) returns (out: string)
    requires 2 <= base <= 16
    ensures out == out0 + Printed(num, base, width, padc)
    decreases num
  {
    out := out0;
    if num >= base {
      Shrinks(num, base);
      out := PrintNum(out, num / base, base, width - 1, padc);
    } else {
      out := Pad(out, width, padc);
      assert num % base == num;
    }
    out := out + [DigitChar(num % base)];
  }

  // while (--width > 0) putch(padc)
  method Pad(out0: string, width: int, padc: char) returns (out: string)
    ensures out == out0 + Repeat(padc, width - 1)
  {
    out := out0;
    var w := width - 1;
    while w > 0
      invariant w <= width - 1 && (w < 0 ==> w == width - 1)
      invariant out == out0 + Repeat(padc, width - 1 - (if w > 0 then w else 0))
    {
      out := out + [padc];
      w := w - 1;
    }
  }

  // ---------------------------------------------------------------- strtol

  // s[i], with the terminating NUL
  function CharAt(s: string, i: int): char {
    if 0 <= i < |s| then s[i] else '\0'
  }

  // The value of a digit character, or 36 for any other
  function DigitOf(c: char): int {
    if '0' <= c <= '9' then c as int - '0' as int
    else if 'a' <= c <= 'z' then c as int - 'a' as int + 10
    else if 'A' <= c <= 'Z' then c as int - 'A' as int + 10
    else 36
  }

  function SkipBlanks(s: string, i: nat): (j: nat)
    ensures j >= i
    decreases |s| - i
  {
    if CharAt(s, i) == ' ' || CharAt(s, i) == '\t' then SkipBlanks(s, i + 1) else i
  }

  // Digits from s[i] on: the value and the index after the last one
  function ReadDigits(s: string, i: nat, base: int, val: int): (int, nat)
    decreases |s| - i
  {
    if i < |s| && DigitOf(s[i]) < 36
      && DigitOf(s[i]) < base then ReadDigits(s, i + 1, base, Wrap32(val * base + DigitOf(s[i])))
    else (val, i)
  }

  // The base, and where the digits begin, after an optional prefix at s[i]
  function Prefix(s: string, i: nat, base: int): (int, nat) {
    if (base == 0 || base == 16) && CharAt(s, i) == '0' && CharAt(s, i + 1) == 'x' then (16, i + 2)
    else if base == 0 && CharAt(s, i) == '0' then (8, i + 1)
    else if base == 0 then (10, i)
    else (base, i)
  }

  function StrToL(s: string, base: int): (int, nat) {
    var i := SkipBlanks(s, 0);
    var neg := CharAt(s, i) == '-';
    var (b, j) := Prefix(s, if CharAt(s, i) == '+' || neg then i + 1 else i, base);
    var (val, end) := ReadDigits(s, j, b, 0);
    (if neg then Wrap32(-val) else val, end)
  }

  /** strtol; end is *endptr */
  method Strtol(s: string, base0: int) returns (r: int, end: nat)
    ensures (r, end) == StrToL(s, base0)
  {
    var i: nat, base := 0, base0;
    while CharAt(s, i) == ' ' || CharAt(s, i) == '\t'
      invariant SkipBlanks(s, i) == SkipBlanks(s, 0)
      decreases |s| - i
    {
      i := i + 1;
    }
    var neg := false;
    if CharAt(s, i) == '+' {
      i := i + 1;
    } else if CharAt(s, i) == '-' {
      i := i + 1;
      neg := true;
    }
    if (base == 0 || base == 16) && CharAt(s, i) == '0' && CharAt(s, i + 1) == 'x' {
      i := i + 2;
      base := 16;
    } else if base == 0 && CharAt(s, i) == '0' {
      i := i + 1;
      base := 8;
    } else if base == 0 {
      base := 10;
    }
    r, end := ScanDigits(s, i, base);
    if neg {
      r := Wrap32(-r);
    }
  }

  // strtol's loop over the digits
  method ScanDigits(s: string, start: nat, base: int) returns (val: int, i: nat)
    ensures (val, i) == ReadDigits(s, start, base, 0)
  {
    val, i := 0, start;
    while true
      invariant ReadDigits(s, i, base, val) == ReadDigits(s, start, base, 0)
      decreases |s| - i
    {
      var dig := DigitOf(CharAt(s, i));
      if dig == 36 || dig >= base {
        break;
      }
      i := i + 1;
      val := Wrap32(val * base + dig);
    }
  }

  // ---------------------------------------------------------------- reading undoes printing

  lemma DigitRoundTrip(d: int)
    requires 0 <= d < 16
    ensures DigitOf(DigitChar(d)) == d
    ensures DigitChar(d) != ' ' && DigitChar(d) != '\t' && DigitChar(d) != '+' && DigitChar(d) != '-'
      && DigitChar(d) != 'x' && DigitChar(d) != '\0'
  {
  }

  // Every character of s from i on is a digit of the base.
  predicate AllDigits(s: string, i: nat, base: int) {
    forall k :: i <= k < |s| ==> (DigitOf(s[k]) < base && DigitOf(s[k]) < 16 && s[k] != 'x' && s[k] != ' '
      && s[k] != '\t' && s[k] != '+' && s[k] != '-')
  }

  // The value of a digit string
  function Fold(s: string, base: int, val: int): int {
    if s == "" then val else Wrap32(Fold(s[..|s| - 1], base, val) * base + DigitOf(s[|s| - 1]))
  }

  lemma {:induction false} FoldFront(s: string, base: int, val: int)
    requires s != ""
    ensures Fold(s, base, val) == Fold(s[1..], base, Wrap32(val * base + DigitOf(s[0])))
    decreases |s|
  {
    var t := s[..|s| - 1];
    if |s| == 1 {
      assert t == "" && s[1..] == "";
    } else {
      FoldFront(t, base, val);
      assert t[1..] == s[1..][..|s[1..]| - 1];
      assert s[1..][|s[1..]| - 1] == s[|s| - 1];
    }
  }

  lemma {:induction false} ReadIsFold(s: string, i: nat, base: int, val: int)
    requires i <= |s| && AllDigits(s, i, base) && base <= 36
    ensures ReadDigits(s, i, base, val) == (Fold(s[i..], base, val), |s|)
    decreases |s| - i
  {
    if i < |s| {
      ReadIsFold(s, i + 1, base, Wrap32(val * base + DigitOf(s[i])));
      FoldFront(s[i..], base, val);
      assert s[i..][1..] == s[i + 1..];
    } else {
      assert s[i..] == "";
    }
  }

  lemma {:induction false} FoldDigits(num: nat, base: int)
    requires 2 <= base <= 16 && num < 0x8000_0000
    ensures Fold(Digits(num, base), base, 0) == num && AllDigits(Digits(num, base), 0, base)
    decreases num
  {
    var s := Digits(num, base);
    if num >= base {
      Shrinks(num, base);
      FoldDigits(num / base, base);
      DigitRoundTrip(num % base);
      assert s[..|s| - 1] == Digits(num / base, base);
      Recompose(num, base);
    } else {
      DigitRoundTrip(num);
      assert s[..0] == "";
    }
  }

  lemma Recompose(num: nat, base: int)
    requires 2 <= base <= 16 && num < 0x8000_0000
    ensures Wrap32(num / base * base + num % base) == num
  {
  }

  // Leading zeros do not count.
  lemma {:induction false} FoldZeros(n: int, s: string, base: int)
    requires base > 0
    ensures Fold(Repeat('0', n) + s, base, 0) == Fold(s, base, 0)
    decreases n
  {
    var z := Repeat('0', n);
    if n <= 0 {
      assert z + s == s;
    } else {
      assert z + s == Repeat('0', n - 1) + (['0'] + s);
      FoldZeros(n - 1, ['0'] + s, base);
      FoldFront(['0'] + s, base, 0);
      assert (['0'] + s)[1..] == s;
    }
  }

  lemma {:induction false} RepeatAll(c: char, n: int)
    ensures forall k :: 0 <= k < |Repeat(c, n)| ==> Repeat(c, n)[k] == c
    decreases n
  {
    if n > 0 {
      RepeatAll(c, n - 1);
    }
  }

  lemma {:induction false} SkipAll(s: string, i: nat, j: nat)
    requires i <= j <= |s| && (forall k :: i <= k < j ==> s[k] == ' ') && CharAt(s, j) != ' ' && CharAt(s, j) != '\t'
    ensures SkipBlanks(s, i) == j
    decreases j - i
  {
    if i < j {
      SkipAll(s, i + 1, j);
    }
  }

  // Reading from the first digit
  lemma ReadFrom(s: string, i: nat, base: int, num: int)
    requires GoodBase(base) && i < |s| && AllDigits(s, i, base) && SkipBlanks(s, 0) == i && Fold(s[i..], base, 0) == num
    ensures StrToL(s, base) == (num, |s|)
  {
    ReadIsFold(s, i, base, 0);
    assert s[i] != '+' && s[i] != '-' && CharAt(s, i + 1) != 'x';
  }

  /** Printing and reading undo each other: for 0 <= num < 2^31 in base 8, 10 or 16, any width and
      padding ' ' or '0', strtol reads the number back and all of the output, whose length is the
      larger of the width and the number of digits. */
  lemma PrintThenRead(num: nat, base: int, width: int, padc: char)
    requires num < 0x8000_0000 && GoodBase(base) && (padc == ' ' || padc == '0')
    ensures var s := Printed(num, base, width, padc);
      && StrToL(s, base) == (num, |s|)
      && |s| == if width > |Digits(num, base)| then width else |Digits(num, base)|
  {
    if padc == ' ' {
      BlankPadded(num, base, width);
    } else {
      ZeroPadded(num, base, width);
    }
  }

  lemma BlankPadded(num: nat, base: int, width: int)
    requires num < 0x8000_0000 && GoodBase(base)
    ensures StrToL(Printed(num, base, width, ' '), base) == (num, |Printed(num, base, width, ' ')|)
  {
    var d, pad := Digits(num, base), Repeat(' ', width - |Digits(num, base)|);
    var s := pad + d;
    FoldDigits(num, base);
    RepeatAll(' ', width - |d|);
    assert s[|pad|..] == d && AllDigits(s, |pad|, base);
    SkipAll(s, 0, |pad|);
    ReadFrom(s, |pad|, base, num);
  }

  lemma ZeroPadded(num: nat, base: int, width: int)
    requires num < 0x8000_0000 && GoodBase(base)
    ensures StrToL(Printed(num, base, width, '0'), base) == (num, |Printed(num, base, width, '0')|)
  {
    var d := Digits(num, base);
    var s := Repeat('0', width - |d|) + d;
    FoldDigits(num, base);
    RepeatAll('0', width - |d|);
    FoldZeros(width - |d|, d, base);
    assert s[0..] == s && AllDigits(s, 0, base);
    SkipAll(s, 0, 0);
    ReadFrom(s, 0, base, num);
  }

  // ---------------------------------------------------------------- what is printed, exactly

  const LOWER := "0123456789abcdefghijklmnopqrstuvwxyz"
  const UPPER := "0123456789ABCDEFGHIJKLMNOPQRSTUVWXYZ"

  // The number a digit string stands for
  function Positional(s: string, base: int): int {
    if s == "" then 0 else Positional(s[..|s| - 1], base) * base + DigitOf(s[|s| - 1])
  }

  lemma {:induction false} DigitInTable(d: int)
    requires 0 <= d < 16
    ensures DigitChar(d) == LOWER[d]
  {
    DigitTable(LOWER[d], d);
  }

  /** A character is the digit d if and only if it is at place d of one of the two tables. */
  lemma DigitTable(c: char, d: int)
    requires 0 <= d < 36
    ensures DigitOf(c) == d <==> c == LOWER[d] || c == UPPER[d]
  {
    TableAt(d);
  }

  lemma TableAt(d: int)
    requires 0 <= d < 36
    ensures LOWER[d] == if d < 10 then '0' + d as char else 'a' + (d - 10) as char
    ensures UPPER[d] == if d < 10 then '0' + d as char else 'A' + (d - 10) as char
  {
    if d < 18 {
      LowTable(d);
    } else {
      HighTable(d);
    }
  }

  lemma LowTable(d: int)
    requires 0 <= d < 18
    ensures LOWER[d] == if d < 10 then '0' + d as char else 'a' + (d - 10) as char
    ensures UPPER[d] == if d < 10 then '0' + d as char else 'A' + (d - 10) as char
  {
  }

  lemma HighTable(d: int)
    requires 18 <= d < 36
    ensures LOWER[d] == 'a' + (d - 10) as char && UPPER[d] == 'A' + (d - 10) as char
  {
  }

  predicate Canonical(s: string, num: nat, base: int) {
    && s != "" && Positional(s, base) == num && (s[0] == '0' <==> num == 0) && (num == 0 ==> |s| == 1)
    && forall k :: 0 <= k < |s| ==> 0 <= DigitOf(s[k]) < base && s[k] == CharAt(LOWER, DigitOf(s[k]))
  }

  lemma {:induction false} CanonicalMore(s: string, num: nat, base: int, d: int)
    requires 2 <= base <= 16 && Canonical(s, num, base) && num > 0 && 0 <= d < base
    ensures Canonical(s + [DigitChar(d)], num * base + d, base)
  {
    var s' := s + [DigitChar(d)];
    DigitRoundTrip(d);
    DigitInTable(d);
    assert s'[..|s'| - 1] == s;
    assert num * base + d > 0;
  }

  lemma CanonicalOne(d: int, base: int)
    requires 2 <= base <= 16 && 0 <= d < base
    ensures Canonical([DigitChar(d)], d, base)
  {
    DigitRoundTrip(d);
    DigitInTable(d);
    assert [DigitChar(d)][..0] == "" && Positional("", base) == 0;
  }

  /** The digits printed are the canonical ones: they stand for the number, come from the lower-case
      table, below the base, and begin with 0 only for 0 itself. */
  lemma {:induction false} DigitsCanonical(num: nat, base: int)
    requires 2 <= base <= 16
    ensures Canonical(Digits(num, base), num, base)
    decreases num
  {
    if num >= base {
      Shrinks(num, base);
      DigitsCanonical(num / base, base);
      NotZero(num, base);
      CanonicalMore(Digits(num / base, base), num / base, base, num % base);
    } else {
      CanonicalOne(num, base);
    }
  }

  lemma NotZero(num: nat, base: int)
    requires 2 <= base && num >= base
    ensures num / base > 0 && num / base * base + num % base == num
  {
  }

  // ---------------------------------------------------------------- what is read, exactly

  // The text between the sign and the digits, for the base asked for, and the base then used
  predicate PrefixOk(pre: string, base: int, b: int, rest: string) {
    || (pre == "0x" && (base == 0 || base == 16) && b == 16)
    || (pre == "0" && base == 0 && b == 8 && CharAt(rest, 0) != 'x')
    || (pre == "" && base == 0 && b == 10 && CharAt(rest, 0) != '0')
    || (pre == "" && base != 0 && b == base && !(base == 16 && CharAt(rest, 0) == '0' && CharAt(rest, 1) == 'x'))
  }

  predicate BlankText(s: string) { forall k :: 0 <= k < |s| ==> s[k] == ' ' || s[k] == '\t' }

  predicate DigitText(s: string, b: int) { forall k :: 0 <= k < |s| ==> DigitOf(s[k]) < b }

  // Neither a blank nor a sign
  predicate PlainStart(c: char) { c != ' ' && c != '\t' && c != '+' && c != '-' }

  // What the sign, if any, does to the value
  function Signed(sign: string, val: int): int { if sign == "-" then Wrap32(-val) else val }

  lemma {:induction false} BlanksSkipped(s: string, i: nat, j: nat)
    requires i <= j <= |s| && (forall k :: i <= k < j ==> s[k] == ' ' || s[k] == '\t')
      && CharAt(s, j) != ' ' && CharAt(s, j) != '\t'
    ensures SkipBlanks(s, i) == j
    decreases j - i
  {
    if i < j {
      BlanksSkipped(s, i + 1, j);
    }
  }

  lemma {:induction false} DigitsRead(s: string, i: nat, j: nat, b: int, val: int)
    requires i <= j <= |s| && 0 < b <= 36 && (forall k :: i <= k < j ==> DigitOf(s[k]) < b)
      && DigitOf(CharAt(s, j)) >= b
    ensures ReadDigits(s, i, b, val) == (Fold(s[i..j], b, val), j)
    decreases j - i
  {
    if i < j {
      DigitsRead(s, i + 1, j, b, Wrap32(val * b + DigitOf(s[i])));
      FoldFront(s[i..j], b, val);
      assert s[i..j][1..] == s[i + 1..j] && s[i..j][0] == s[i];
    } else {
      assert s[i..j] == "";
    }
  }

  lemma WrapMul(x: int, b: int, d: int)
    ensures Wrap32(Wrap32(x) * b + d) == Wrap32(x * b + d)
  {
    var q := (x + 0x8000_0000) / 0x1_0000_0000;
    assert Wrap32(x) == x - q * 0x1_0000_0000;
    assert Wrap32(x) * b + d == x * b + d - (q * b) * 0x1_0000_0000;
    WrapShift(x * b + d, q * b);
  }

  lemma WrapShift(y: int, n: int)
    ensures Wrap32(y - n * 0x1_0000_0000) == Wrap32(y)
  {
  }

  // What the digits add up to, in 32 bits
  lemma {:induction false} FoldPositional(s: string, b: int)
    ensures Fold(s, b, 0) == Wrap32(Positional(s, b))
    decreases |s|
  {
    if s != "" {
      FoldPositional(s[..|s| - 1], b);
      WrapMul(Positional(s[..|s| - 1], b), b, DigitOf(s[|s| - 1]));
    }
  }

  // Where the parts of the number lie in the text
  ghost predicate Parts(s: string, blanks: string, sign: string, pre: string, ds: string, tail: string) {
    s == blanks + sign + pre + ds + tail
  }

  lemma PartsAt(s: string, blanks: string, sign: string, pre: string, ds: string, tail: string)
    requires Parts(s, blanks, sign, pre, ds, tail) && |sign| <= 1 && |pre| <= 2
    ensures var i := |blanks|; var j := i + |sign|; var l := j + |pre|;
      && blanks <= s && (sign != "" ==> CharAt(s, i) == sign[0])
      && (pre != "" ==> CharAt(s, j) == pre[0]) && (|pre| == 2 ==> CharAt(s, j + 1) == pre[1])
      && s[l..l + |ds|] == ds && CharAt(s, l) == CharAt(ds + tail, 0) && CharAt(s, l + 1) == CharAt(ds + tail, 1)
      && CharAt(s, l + |ds|) == CharAt(tail, 0) && |s| == l + |ds| + |tail|
  {
    var l := |blanks| + |sign| + |pre|;
    assert s == blanks + (sign + (pre + (ds + tail)));
    assert s[l..] == ds + tail;
  }

  /** strtol reads blanks, a sign, a prefix and digits, and stops at the first character that is no
      digit of the base: the result is the number the digits stand for, in 32 bits, negated after a
      minus sign. */
  lemma ReadsNumber(s: string, blanks: string, sign: string, pre: string, ds: string, tail: string, base: int, b: int)
    requires Parts(s, blanks, sign, pre, ds, tail) && BlankText(blanks) && (sign == "" || sign == "+" || sign == "-")
    requires PrefixOk(pre, base, b, ds + tail) && 0 < b <= 36 && DigitText(ds, b) && DigitOf(CharAt(tail, 0)) >= b
    requires sign == "" && pre == "" ==> PlainStart(CharAt(ds + tail, 0))
    ensures StrToL(s, base) == (Signed(sign, Wrap32(Positional(ds, b))), |s| - |tail|)
  {
    var i := |blanks|;
    var j := i + |sign|;
    var l := j + |pre|;
    PartsAt(s, blanks, sign, pre, ds, tail);
    BlanksRead(s, blanks, sign, pre, CharAt(ds + tail, 0));
    DigitsPart(s, l, ds, b);
    PrefixRead(s, j, l, pre, base, b, ds + tail);
    SignRead(s, i, sign, pre, CharAt(ds + tail, 0));
    AllRead(s, i, sign, base, b, l, ds);
  }

  lemma AllRead(s: string, i: nat, sign: string, base: int, b: int, l: nat, ds: string)
    requires SkipBlanks(s, 0) == i && Prefix(s, i + |sign|, base) == (b, l)
      && ReadDigits(s, l, b, 0) == (Wrap32(Positional(ds, b)), l + |ds|)
    requires (sign == "" || sign == "+" || sign == "-")
      && (CharAt(s, i) == '+' <==> sign == "+") && (CharAt(s, i) == '-' <==> sign == "-")
    ensures StrToL(s, base) == (Signed(sign, Wrap32(Positional(ds, b))), l + |ds|)
  {
  }

  lemma BlanksRead(s: string, blanks: string, sign: string, pre: string, next: char)
    requires BlankText(blanks) && blanks <= s && (sign == "" || sign == "+" || sign == "-")
      && (pre == "" || pre == "0" || pre == "0x") && (sign == "" && pre == "" ==> PlainStart(next))
    requires CharAt(s, |blanks|) == if sign != "" then sign[0] else if pre != "" then pre[0] else next
    ensures SkipBlanks(s, 0) == |blanks|
  {
    forall k | 0 <= k < |blanks| ensures s[k] == ' ' || s[k] == '\t' {
      assert s[k] == blanks[k];
    }
    BlanksSkipped(s, 0, |blanks|);
  }

  lemma DigitsPart(s: string, l: nat, ds: string, b: int)
    requires l + |ds| <= |s| && s[l..l + |ds|] == ds && 0 < b <= 36 && DigitText(ds, b)
      && DigitOf(CharAt(s, l + |ds|)) >= b
    ensures ReadDigits(s, l, b, 0) == (Wrap32(Positional(ds, b)), l + |ds|)
  {
    forall k | l <= k < l + |ds| ensures DigitOf(s[k]) < b {
      assert s[k] == ds[k - l];
    }
    DigitsRead(s, l, l + |ds|, b, 0);
    FoldPositional(ds, b);
  }

  lemma PrefixRead(s: string, j: nat, l: nat, pre: string, base: int, b: int, rest: string)
    requires PrefixOk(pre, base, b, rest) && l == j + |pre|
    requires pre != "" ==> CharAt(s, j) == pre[0]
    requires |pre| == 2 ==> CharAt(s, j + 1) == pre[1]
    requires CharAt(s, l) == CharAt(rest, 0) && CharAt(s, l + 1) == CharAt(rest, 1)
    ensures Prefix(s, j, base) == (b, l)
  {
  }

  lemma SignRead(s: string, i: nat, sign: string, pre: string, next: char)
    requires sign == "" || sign == "+" || sign == "-"
    requires sign != "" ==> CharAt(s, i) == sign[0]
    requires sign == "" ==> CharAt(s, i) == if pre == "" then next else pre[0]
    requires sign == "" && pre == "" ==> next != '+' && next != '-'
    requires pre == "" || pre == "0" || pre == "0x"
    ensures CharAt(s, i) == '+' <==> sign == "+"
    ensures CharAt(s, i) == '-' <==> sign == "-"
  {
  }
}
