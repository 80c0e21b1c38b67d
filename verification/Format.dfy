/** kernel/vsprintf.c: number and skip_atoi. */
module Format {
  const WORD: int := 0x1_0000_0000

  datatype Flags = Flags(zeroPad: bool, sign: bool, plus: bool, space: bool, left: bool, special: bool, small: bool)

  datatype Option<T> = None | Some(value: T)

  function DigitChar(d: nat, small: bool): char
    requires d < 36
  {
    if d < 10 then '0' + d as char else (if small then 'a' else 'A') + (d - 10) as char
  }

  function DigitValue(c: char): int {
    if '0' <= c <= '9' then c as int - '0' as int
    else if 'A' <= c <= 'Z' then c as int - 'A' as int + 10
    else if 'a' <= c <= 'z' then c as int - 'a' as int + 10
    else -1
  }

  lemma CharValue(d: nat, small: bool)
    requires d < 36
    ensures DigitValue(DigitChar(d, small)) == d && (d < 10 ==> '0' <= DigitChar(d, small) <= '9')
  { }

  /** What a numeral means. */
  function Value(s: string, base: nat): int {
    if s == "" then 0 else Value(s[..|s| - 1], base) * base + DigitValue(s[|s| - 1])
  }

  /** The shortest numeral, most significant digit first. */
  function Digits(n: nat, base: nat, small: bool): string
    requires 2 <= base <= 36
  {
    if n < base then [DigitChar(n, small)] else Digits(n / base, base, small) + [DigitChar(n % base, small)]
  }

  function Pow2(k: nat): nat { if k == 0 then 1 else 2 * Pow2(k - 1) }

  /** A number of k bits has at most k digits, in any base. */
  lemma {:induction false} DigitsFit(n: nat, base: nat, small: bool, k: nat)
    requires 2 <= base <= 36 && k >= 1 && n < Pow2(k)
    ensures 1 <= |Digits(n, base, small)| <= k
  {
    DivMod(n, base);
    assert Pow2(1) == 2 * Pow2(0) == 2;
    if n >= base {
      var q := n / base;
      assert q * 2 <= q * base;
      DigitsFit(q, base, small, k - 1);
    }
  }

  lemma WordBits()
    ensures Pow2(32) == WORD
  {
    assert Pow2(8) == 0x100 && Pow2(16) == 0x1_0000 && Pow2(24) == 0x100_0000;
  }

  lemma DivMod(n: nat, base: nat)
    requires 2 <= base <= 36
    ensures 0 <= n / base <= n && n / base * base + n % base == n && (n < base ==> n % base == n)
            && (n > 0 ==> n / base < n)
  {
    var q := n / base;
    assert n == q * base + n % base;
    assert q >= 0 && q * 2 <= q * base;
  }

  lemma ValueMore(s: string, c: char, base: nat)
    ensures Value(s + [c], base) == Value(s, base) * base + DigitValue(c)
  {
    assert (s + [c])[..|s + [c]| - 1] == s;
  }

  lemma {:induction false} DigitsValue(n: nat, base: nat, small: bool)
    requires 2 <= base <= 36
    ensures Value(Digits(n, base, small), base) == n
  {
    hide DigitChar, DigitValue;
    CharValue(n % base, small);
    DivMod(n, base);
    if n < base {
      ValueMore("", DigitChar(n, small), base);
      assert "" + [DigitChar(n, small)] == Digits(n, base, small);
    } else {
      DigitsValue(n / base, base, small);
      ValueMore(Digits(n / base, base, small), DigitChar(n % base, small), base);
    }
  }

  /** The number that is shown: a signed number without its sign, or the word
      taken as unsigned. */
  function Magnitude(num: int, f: Flags): nat
    requires -0x8000_0000 <= num < 0x8000_0000
  {
    if num >= 0 then num else if f.sign then -num else num + WORD
  }

  function SignOf(num: int, f: Flags): string {
    if f.sign && num < 0 then "-" else if f.plus then "+" else if f.space then " " else ""
  }

  function PrefixOf(base: nat, f: Flags): string {
    if !f.special then "" else if base == 8 then "0" else if base == 16 then ['0', if f.small then 'x' else 'X'] else ""
  }

  function Fill(c: char, n: int): (s: string)
    ensures |s| == (if n > 0 then n else 0) && forall i :: 0 <= i < |s| ==> s[i] == c
  {
    if n <= 0 then "" else seq(n, _ => c)
  }

  function Most(a: int, b: int): int { if a > b then a else b }

  /** The field: spaces, sign and prefix, zeroes, digits, spaces. */
  function Field(num: int, base: nat, size: int, precision: int, f: Flags): string
    requires -0x8000_0000 <= num < 0x8000_0000 && 2 <= base <= 36
  {
    var digits := Digits(Magnitude(num, f), base, f.small);
    var front := SignOf(num, f) + PrefixOf(base, f);
    var room := size - |front| - Most(precision, |digits|);
    var zero := f.zeroPad && !f.left;
    (if zero || f.left then "" else Fill(' ', room)) + front
    + (if zero then Fill('0', room) else "") + Fill('0', precision - |digits|) + digits
    + if f.left then Fill(' ', room) else ""
  }

  /** Its length is the width, or what it needs. */
  lemma FieldLength(num: int, base: nat, size: int, precision: int, f: Flags)
    requires -0x8000_0000 <= num < 0x8000_0000 && 2 <= base <= 36
    ensures |Field(num, base, size, precision, f)| ==
      Most(size, |SignOf(num, f)| + |PrefixOf(base, f)| + Most(precision, |Digits(Magnitude(num, f), base, f.small)|))
  { }

  lemma {:induction false} LeadingZeroes(s: string, n: int, base: nat)
    ensures Value(Fill('0', n) + s, base) == Value(s, base)
    decreases |s|
  {
    if s == "" {
      assert Fill('0', n) + s == Fill('0', n);
      Zeroes(n, base);
    } else {
      var t := Fill('0', n) + s;
      assert t[..|t| - 1] == Fill('0', n) + s[..|s| - 1] && t[|t| - 1] == s[|s| - 1];
      LeadingZeroes(s[..|s| - 1], n, base);
    }
  }

  lemma {:induction false} Zeroes(n: int, base: nat)
    ensures Value(Fill('0', n), base) == 0
    decreases if n > 0 then n else 0
  {
    if n > 0 {
      assert Fill('0', n)[..n - 1] == Fill('0', n - 1);
      Zeroes(n - 1, base);
    }
  }

  /** The numeral in the field: the digits behind their zeroes. */
  function Numeral(num: int, base: nat, size: int, precision: int, f: Flags): string
    requires -0x8000_0000 <= num < 0x8000_0000 && 2 <= base <= 36
  {
    var digits := Digits(Magnitude(num, f), base, f.small);
    var room := size - |SignOf(num, f) + PrefixOf(base, f)| - Most(precision, |digits|);
    (if f.zeroPad && !f.left then Fill('0', room) else "") + (Fill('0', precision - |digits|) + digits)
  }

  /** Between sign, prefix and spaces stands a numeral of the number: nothing is
      lost, the most negative int included. */
  lemma FieldValue(num: int, base: nat, size: int, precision: int, f: Flags)
    requires -0x8000_0000 <= num < 0x8000_0000 && 2 <= base <= 36
    ensures var digits := |Digits(Magnitude(num, f), base, f.small)|;
      var room := size - |SignOf(num, f) + PrefixOf(base, f)| - Most(precision, digits);
      var body := Numeral(num, base, size, precision, f);
      && Field(num, base, size, precision, f) == (if f.zeroPad || f.left then "" else Fill(' ', room))
           + (SignOf(num, f) + PrefixOf(base, f)) + body + (if f.left then Fill(' ', room) else "")
      && Value(body, base) == Magnitude(num, f)
  {
    hide Digits, Value, Magnitude, SignOf, PrefixOf;
    var digits := Digits(Magnitude(num, f), base, f.small);
    var room := size - |SignOf(num, f) + PrefixOf(base, f)| - Most(precision, |digits|);
    DigitsValue(Magnitude(num, f), base, f.small);
    LeadingZeroes(digits, precision - |digits|, base);
    LeadingZeroes(Fill('0', precision - |digits|) + digits, room, base);
    var zero := f.zeroPad && !f.left;
    Regroup((if zero || f.left then "" else Fill(' ', room)) + (SignOf(num, f) + PrefixOf(base, f)),
            if zero then Fill('0', room) else "",
            Fill('0', precision - |digits|), digits);
    hide Fill, Most;
    assert "" + (Fill('0', precision - |digits|) + digits) == Fill('0', precision - |digits|) + digits;
  }

  lemma Regroup(a: string, b: string, c: string, d: string)
    ensures a + b + c + d == a + (b + (c + d))
  { }

  lemma FillNone(c: char, n: int)
    requires n <= 0
    ensures Fill(c, n) == ""
  { }

  /** number: nothing for a base it cannot show. */
  method Number(num: int, base: nat, size: int, precision: int, f: Flags) returns (r: Option<string>)
    requires -0x8000_0000 <= num < 0x8000_0000
    ensures r.None? <==> base < 2 || base > 36
    ensures r.Some? ==> r.value == Field(num, base, size, precision, f)
  {
    hide Digits, Fill, Reverse, SignOf, PrefixOf, Magnitude;
    if base < 2 || base > 36 { return None; }
    var c := if f.zeroPad && !f.left then '0' else ' ';
    var sign, prefix, n, room := Front(num, base, size, f);
    var tmp := LowFirst(n, base, f.small);
    var i := |tmp|;
    var width := if i > precision then i else precision;
    var str := LayOut(tmp, sign, prefix, c, room - width, width, f);
    return Some(str);
  }

  /** The start of number: sign and prefix, and the room they leave. */
  method Front(num: int, base: nat, size: int, f: Flags) returns (sign: string, prefix: string, n: nat, room: int)
    requires -0x8000_0000 <= num < 0x8000_0000
    ensures sign == SignOf(num, f) && prefix == PrefixOf(base, f) && n == Magnitude(num, f) < WORD
            && room == size - |sign + prefix|
  {
    var word := num;
    room, sign, prefix := size, "", "";
    if f.sign && num < 0 {
      sign := "-";
      word := -num;
    } else if f.plus {
      sign := "+";
    } else if f.space {
      sign := " ";
    }
    if sign != "" { room := room - 1; }
    if f.special {
      if base == 16 {
        prefix := ['0', if f.small then 'x' else 'X'];
        room := room - 2;
      } else if base == 8 {
        prefix := "0";
        room := room - 1;
      }
    }
    // divl takes the word as unsigned; -num of the most negative int is itself.
    n := word % WORD;
  }

  /** The second half of number: padding and digits, left to right. */
  method LayOut(tmp: string, sign: string, prefix: string, c: char, space: int, width: int,
                f: Flags) returns (str: string)
    requires c == if f.zeroPad && !f.left then '0' else ' '
    ensures var zero := f.zeroPad && !f.left;
      str == (if zero || f.left then "" else Fill(' ', space)) + (sign + prefix) + (if zero then Fill('0', space)
              else "")
             + Fill('0', width - |tmp|) + Reverse(tmp) + if f.left then Fill(' ', space) else ""
  {
    hide Reverse, Fill;
    FillNone(c, -1);
    FillNone(' ', -1);
    var room := space;
    str := "";
    if !(f.zeroPad && !f.left) && !f.left {
      str := Pad(str, ' ', room);
      room := -1;
    }
    str := str + sign + prefix;
    if !f.left {
      str := Pad(str, c, room);
      room := -1;
    }
    str := Pad(str, '0', width - |tmp|);
    str := Unwind(str, tmp);
    str := Pad(str, ' ', room);
  }

  function Reverse(s: string): (r: string)
    ensures |r| == |s|
  { if s == "" then "" else Reverse(s[1..]) + [s[0]] }

  lemma {:induction false} ReverseSnoc(s: string, c: char)
    ensures Reverse(s + [c]) == [c] + Reverse(s)
  {
    if s != "" {
      assert (s + [c])[1..] == s[1..] + [c];
      ReverseSnoc(s[1..], c);
    }
  }

  /** while (size-->0) *str++ = c */
  method Pad(str: string, c: char, n: int) returns (r: string)
    ensures r == str + Fill(c, n)
  {
    r := str;
    var k := n;
    while k > 0
      invariant k <= n || n < 0
      invariant r == str + Fill(c, n - if k > 0 then k else 0)
    {
      k := k - 1;
      r := r + [c];
    }
  }

  /** The lowest digit goes from the number to the digits already there. */
  lemma NextDigit(n: nat, base: nat, small: bool, tmp: string)
    requires 2 <= base <= 36 && n > 0
    ensures n / base >= 0
    ensures Digits(n, base, small) + Reverse(tmp) ==
            (if n / base == 0 then "" else Digits(n / base, base, small)) + Reverse(tmp + [DigitChar(n % base, small)])
  {
    DivMod(n, base);
    ReverseSnoc(tmp, DigitChar(n % base, small));
    var q := n / base;
    assert q == 0 <==> n < base;
  }

  /** The digits as they come, the lowest first; tmp[36] has room for them. */
  method LowFirst(num: nat, base: nat, small: bool) returns (tmp: string)
    requires 2 <= base <= 36 && num < WORD
    ensures Reverse(tmp) == Digits(num, base, small) && 1 <= |tmp| <= 32
  {
    hide Pow2;
    WordBits();
    DigitsFit(num, base, small, 32);
    if num == 0 {
      tmp := "0";
      return;
    }
    tmp := "";
    var n: nat := num;
    while n != 0
      invariant n > 0 || tmp != ""
      invariant (if n == 0 then "" else Digits(n, base, small)) + Reverse(tmp) == Digits(num, base, small)
    {
      DivMod(n, base);
      NextDigit(n, base, small, tmp);
      tmp := tmp + [DigitChar(n % base, small)];
      n := n / base;
    }
  }

  /** while (i-->0) *str++ = tmp[i] */
  method Unwind(str: string, tmp: string) returns (r: string)
    ensures r == str + Reverse(tmp)
  {
    r := str;
    var i := |tmp|;
    assert tmp[..|tmp|] == tmp;
    while i > 0
      invariant 0 <= i <= |tmp|
      invariant r + Reverse(tmp[..i]) == str + Reverse(tmp)
    {
      i := i - 1;
      ReverseSnoc(tmp[..i], tmp[i]);
      assert tmp[..i + 1] == tmp[..i] + [tmp[i]];
      r := r + [tmp[i]];
    }
  }

  predicate IsDigit(c: char) { '0' <= c <= '9' }

  /** skip_atoi: the number at place at, and the place behind it. */
  method SkipAtoi(s: string, at: nat) returns (i: int, end: nat)
    requires at <= |s|
    ensures at <= end <= |s| && (forall k :: at <= k < end ==> IsDigit(s[k])) && (end < |s| ==> !IsDigit(s[end]))
    ensures i == Value(s[at..end], 10)
  {
    i, end := 0, at;
    while end < |s| && IsDigit(s[end])
      invariant at <= end <= |s| && (forall k :: at <= k < end ==> IsDigit(s[k])) && i == Value(s[at..end], 10)
    {
      assert s[at..end + 1][..|s[at..end + 1]| - 1] == s[at..end];
      i := i * 10 + (s[end] as int - '0' as int);
      end := end + 1;
    }
  }

  lemma {:induction false} DecimalDigits(n: nat)
    ensures Digits(n, 10, false) != "" && forall k :: 0 <= k < |Digits(n, 10, false)| ==>
        IsDigit(Digits(n, 10, false)[k])
  {
    CharValue(n % 10, false);
    if n >= 10 { DecimalDigits(n / 10); }
  }

  /** Printed and read again, a number that is not negative is the same, whatever
      comes before and whatever but a digit comes behind. */
  method PrintAndRead(num: int, before: string, after: string) returns (n: int, end: nat)
    requires 0 <= num < 0x8000_0000 && (after == "" || !IsDigit(after[0]))
    ensures n == num
    ensures end == |before| + |Digits(num, 10, false)|
  {
    var plain := Flags(false, true, false, false, false, false, false);
    var text := Number(num, 10, -1, -1, plain);
    var digits := Digits(num, 10, false);
    PlainField(num);
    DecimalDigits(num);
    DigitsValue(num, 10, false);
    var s := before + text.value + after;
    n, end := SkipAtoi(s, |before|);
    SameEnd(s, before, digits, after, end);
  }

  lemma PlainField(num: int)
    requires 0 <= num < 0x8000_0000
    ensures Field(num, 10, -1, -1, Flags(false, true, false, false, false, false, false)) == Digits(num, 10, false)
  { }

  lemma SameEnd(s: string, before: string, digits: string, after: string, end: nat)
    requires s == before + digits + after && |before| <= end <= |s| && (after == "" || !IsDigit(after[0]))
    requires forall k :: 0 <= k < |digits| ==> IsDigit(digits[k])
    requires (forall k :: |before| <= k < end ==> IsDigit(s[k])) && (end < |s| ==> !IsDigit(s[end]))
    ensures end == |before| + |digits| && s[|before|..end] == digits
  {
    assert forall k :: |before| <= k < |before| + |digits| ==> s[k] == digits[k - |before|] && IsDigit(s[k]);
    assert after != "" ==> s[|before| + |digits|] == after[0];
  }
}
