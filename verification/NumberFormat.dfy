/** Printing a number: digits are produced backwards into a small buffer, then laid out in a field. */
module NumberFormat {
  type Word = w: nat | w < 0x1_0000_0000

  const TEMP_SIZE := 12
  const LOWER := "0123456789abcdef"
  const UPPER := "0123456789ABCDEF"

  /** 'left' and 'zero' are the flags - and 0; max is the precision. */
  datatype Field = Field(left: bool, zero: bool, width: int, max: int)

  // ---------------------------------------------------------------- digits

  predicate IsBase(base: nat) {
    base == 8 || base == 10 || base == 16
  }

  function Pow(b: nat, e: nat): (r: nat)
    ensures 0 < b ==> 0 < r
  {
    if e == 0 then 1 else b * Pow(b, e - 1)
  }

  /** The digits of u, highest first. */
  function Digits(u: nat, base: nat, table: string): (r: string)
    requires IsBase(base) && |table| == 16
    ensures 0 < |r|
    decreases u
  {
    (if u < base then "" else Digits(u / base, base, table)) + [table[u % base]]
  }

  /** The value of a digit, or 99 if it is none. */
  function DigitOf(c: char): nat {
    if '0' <= c <= '9' then c as int - '0' as int
    else if 'a' <= c <= 'f' then c as int - 'a' as int + 10
    else if 'A' <= c <= 'F' then c as int - 'A' as int + 10
    else 99
  }

  /** The number a text of digits denotes. */
  function Number(s: string, base: nat): nat {
    if s == "" then 0 else Number(s[..|s| - 1], base) * base + DigitOf(s[|s| - 1])
  }

  /** Division, one base at a time. */
  lemma Divide(u: nat, base: nat)
    requires IsBase(base)
    ensures u / base * base + u % base == u && u % base < 16 && (u / base > 0 <==> u >= base)
  {
    if base == 8 {
    } else if base == 10 {
    } else {
    }
  }

  lemma DivideLess(u: nat, base: nat)
    requires IsBase(base)
    ensures u / base <= u && (u > 0 ==> u / base < u)
  {
    if base == 8 {
    } else if base == 10 {
    } else {
    }
  }

  lemma {:induction false} NumberGrows(s: string, c: char, base: nat)
    ensures Number(s + [c], base) == Number(s, base) * base + DigitOf(c)
  {
    assert (s + [c])[..|s + [c]| - 1] == s;
  }

  lemma TableDigit(table: string, d: nat)
    requires (table == LOWER || table == UPPER) && d < 16
    ensures DigitOf(table[d]) == d
  {
  }

  /** If s denotes u without its last digit, then s with that digit denotes u. */
  lemma {:induction false} Denotes(s: string, table: string, base: nat, u: nat)
    requires IsBase(base) && (table == LOWER || table == UPPER) && u % base < 16 && Number(s, base) == u / base
    ensures Number(s + [table[u % base]], base) == u
  {
    Divide(u, base);
    NumberGrows(s, table[u % base], base);
    TableDigit(table, u % base);
  }

  /** The digits that are printed denote the number. */
  lemma {:induction false} DigitsDenote(u: nat, base: nat, table: string)
    requires IsBase(base) && (table == LOWER || table == UPPER)
    ensures Number(Digits(u, base, table), base) == u
    decreases u
  {
    if u < base {
      Denotes("", table, base, u);
      assert "" + [table[u % base]] == [table[u % base]];
    } else {
      DivideLess(u, base);
      DigitsDenote(u / base, base, table);
      Denotes(Digits(u / base, base, table), table, base, u);
    }
  }

  lemma ShrinkBy8(u: nat, base: nat, p: nat)
    requires IsBase(base) && u < Pow(8, p + 1)
    ensures u / base < Pow(8, p)
  {
    if base == 8 {
    } else if base == 10 {
    } else {
    }
  }

  lemma WordFits()
    ensures 0xFFFF_FFFF < Pow(8, TEMP_SIZE - 1)
  {
    assert Pow(8, 3) == 512;
    assert Pow(8, 6) == 512 * 512 by {
      assert Pow(8, 4) == 8 * 512 && Pow(8, 5) == 64 * 512;
    }
    assert Pow(8, 9) == 512 * 512 * 512 by {
      assert Pow(8, 7) == 8 * 512 * 512 && Pow(8, 8) == 64 * 512 * 512;
    }
    assert Pow(8, 11) == 64 * 512 * 512 * 512 by {
      assert Pow(8, 10) == 8 * 512 * 512 * 512;
    }
  }

  /** The digits of u0 are those of u, if any are left, and then suffix. */
  ghost predicate Building(u0: nat, u: nat, more: bool, base: nat, table: string, suffix: string)
    requires IsBase(base) && |table| == 16
  {
    Digits(u0, base, table) == (if more then Digits(u, base, table) else "") + suffix
  }

  lemma {:induction false} BuildingStep(u0: nat, u: nat, base: nat, table: string, suffix: string)
    requires IsBase(base) && |table| == 16 && Building(u0, u, true, base, table, suffix)
    ensures u % base < 16 && u / base <= u && (u > 0 ==> u / base < u)
    ensures Building(u0, u / base, u / base > 0, base, table, [table[u % base]] + suffix)
  {
    Divide(u, base);
    DivideLess(u, base);
    var rest := if u < base then "" else Digits(u / base, base, table);
    assert rest + [table[u % base]] + suffix == rest + ([table[u % base]] + suffix);
  }

  /** One digit is stored; it is the place before it that must exist. */
  method StoreDigit(u0: Word, u: nat, base: nat, table: string, temp: array<char>, p0: nat) returns (q: nat, p: nat)
    requires IsBase(base) && |table| == 16 && temp.Length == TEMP_SIZE && 0 < p0 < TEMP_SIZE && u < Pow(8, p0)
    requires temp[TEMP_SIZE - 1] == '\0' && Building(u0, u, true, base, table, temp[p0..TEMP_SIZE - 1])
    modifies temp
    ensures p == p0 - 1 && q < Pow(8, p) && q <= u && (u > 0 ==> q < u) && temp[TEMP_SIZE - 1] == '\0'
    ensures Building(u0, q, q > 0, base, table, temp[p..TEMP_SIZE - 1])
  {
    ghost var suffix := temp[p0..TEMP_SIZE - 1];
    BuildingStep(u0, u, base, table, suffix);
    ShrinkBy8(u, base, p0 - 1);
    p := p0 - 1;
    temp[p] := table[u % base];
    assert temp[p..TEMP_SIZE - 1] == [table[u % base]] + suffix;
    q := u / base;
  }

  /** int2ascii: the digits end up in temp from place p to the last but one. They always fit. */
  method Int2Ascii(u0: Word, base: nat, table: string, temp: array<char>) returns (p: nat)
    requires IsBase(base) && |table| == 16 && temp.Length == TEMP_SIZE
    modifies temp
    ensures p < TEMP_SIZE - 1 && temp[TEMP_SIZE - 1] == '\0' && temp[p..TEMP_SIZE - 1] == Digits(u0, base, table)
  {
    WordFits();
    p := TEMP_SIZE - 1;
    temp[p] := '\0';
    var u: nat;
    u, p := StoreDigit(u0, u0, base, table, temp, p);
    while u > 0
      invariant p < TEMP_SIZE - 1 && u < Pow(8, p) && temp[TEMP_SIZE - 1] == '\0'
      invariant Building(u0, u, u > 0, base, table, temp[p..TEMP_SIZE - 1])
    {
      u, p := StoreDigit(u0, u, base, table, temp, p);
    }
  }

  // ---------------------------------------------------------------- the field

  function Repeat(c: char, n: int): (r: string)
    ensures |r| == if n > 0 then n else 0
  {
    if n <= 0 then "" else Repeat(c, n - 1) + [c]
  }

  function Fill(f: Field): char {
    if f.zero then '0' else ' '
  }

  /** What is left of the width. */
  function Padding(text: string, negative: bool, f: Field): int {
    f.width - |text| - if negative then 1 else 0
  }

  function Sign(negative: bool): string {
    if negative then "-" else ""
  }

  function Layout(text: string, negative: bool, f: Field): string {
    var pad := Repeat(Fill(f), Padding(text, negative, f));
    var sign := Sign(negative);
    (if f.zero then sign else "") + (if f.left then "" else pad) + (if f.zero then "" else sign) + text
    + (if f.left then pad else "")
  }

  /** The loop that fills the field. */
  method Padded(width0: int, fill: char) returns (pad: string)
    ensures pad == Repeat(fill, width0)
  {
    var width := width0;
    pad := "";
    while width > 0
      invariant (if width0 < 0 then width == width0 else 0 <= width <= width0) && pad == Repeat(fill, width0 - width)
    {
      pad := pad + [fill];
      width := width - 1;
    }
  }

  /** The loop that prints the text itself. */
  method Copied(text: string, len0: nat) returns (out: string)
    requires len0 <= |text|
    ensures out == text[..len0]
  {
    out := "";
    var len, p := len0, 0;
    while len > 0
      invariant p + len == len0 && 0 <= len && out == text[..p]
    {
      out := out + [text[p]];
      p := p + 1;
      len := len - 1;
    }
  }

  /** string_print: len characters of text, with their sign, fill the field. */
  method StringPrint(text: string, len0: nat, negative: bool, f: Field) returns (out: string)
    requires len0 <= |text|
    ensures out == Layout(text[..len0], negative, f)
  {
    out := "";
    var width := f.width - len0;
    if negative {
      width := width - 1;
    }
    var pad := Padded(width, Fill(f));
    if f.zero && negative {
      out := out + "-";
    }
    if !f.left {
      out := out + pad;
      width := 0;
    }
    if !f.zero && negative {
      out := out + "-";
    }
    var shown := Copied(text, len0);
    out := out + shown;
    if width > 0 {
      out := out + pad;
    }
  }

  // ---------------------------------------------------------------- a whole conversion

  predicate IsDigit(c: char) {
    c != '\0' && c != ' ' && c != '-'
  }

  /** How many of the digits are printed. */
  function Shown(digits: string, max: int): (m: nat)
    ensures m <= |digits|
  {
    if |digits| < max then |digits| else if max < 0 then 0 else max
  }

  /** %d, %o, %u, %x and %X: negative numbers come with %d only. */
  method PrintNumber(i: int, base: nat, upper: bool, f: Field) returns (out: string)
    requires IsBase(base) && (-0x8000_0000 <= i < 0x8000_0000 || (0 <= i < 0x1_0000_0000))
    ensures var digits := Digits(if i < 0 then -i else i, base, if upper then UPPER else LOWER);
            out == Layout(digits[..Shown(digits, f.max)], i < 0, f)
  {
    var temp := new char[TEMP_SIZE](_ => '\0');
    var table := if upper then UPPER else LOWER;
    var u: Word := if i < 0 then -i else i;
    var p := Int2Ascii(u, base, table, temp);
    DigitsArePrintable(u, base, table);
    var len := StringLength(temp, p, f.max, Digits(u, base, table));
    out := StringPrint(temp[p..TEMP_SIZE - 1], len, i < 0, f);
  }

  /** string_length: how many characters from place p on are to be printed. */
  method StringLength(temp: array<char>, p: nat, max: int, ghost text: string) returns (len: nat)
    requires temp.Length == TEMP_SIZE && p < TEMP_SIZE && temp[TEMP_SIZE - 1] == '\0' && temp[p..TEMP_SIZE - 1] == text
    requires forall k :: 0 <= k < |text| ==> text[k] != '\0'
    ensures len == Shown(text, max)
  {
    len := 0;
    while temp[p + len] != '\0' && len < max
      invariant len <= |text| && (len == 0 || len <= max)
      decreases |text| - len
    {
      assert len < |text|;
      len := len + 1;
    }
    assert len < |text| ==> temp[p + len] == text[len];
  }

  lemma {:induction false} DigitsArePrintable(u: nat, base: nat, table: string)
    requires IsBase(base) && (table == LOWER || table == UPPER)
    ensures forall k :: 0 <= k < |Digits(u, base, table)| ==> IsDigit(Digits(u, base, table)[k])
    decreases u
  {
    if u >= base {
      DigitsArePrintable(u / base, base, table);
    }
    Divide(u, base);
    assert IsDigit(table[u % base]);
  }

  // ---------------------------------------------------------------- what is printed denotes the number

  function Max(a: int, b: int): int {
    if a < b then b else a
  }

  /** A conversion emits exactly as many characters as the field is wide, or as the digits that are shown and the sign
      need. */
  lemma {:induction false} FieldIsFilled(u: nat, negative: bool, base: nat, table: string, f: Field)
    requires IsBase(base) && (table == LOWER || table == UPPER)
    ensures var digits := Digits(u, base, table);
            var m := Shown(digits, f.max);
            |Layout(digits[..m], negative, f)| == Max(f.width, m + if negative then 1 else 0)
  {
  }

  lemma {:induction false} RepeatIs(c: char, n: int)
    ensures forall i :: 0 <= i < |Repeat(c, n)| ==> Repeat(c, n)[i] == c
  {
    if n > 0 {
      RepeatIs(c, n - 1);
    }
  }

  /** out is front, then nothing but c, then back. */
  predicate Framed(out: string, front: string, c: char, back: string) {
    && |front| + |back| <= |out| && out[..|front|] == front && out[|out| - |back|..] == back
    && forall i :: |front| <= i < |out| - |back| ==> out[i] == c
  }

  lemma {:induction false} FramedByRepeat(front: string, c: char, n: int, back: string)
    ensures Framed(front + (Repeat(c, n) + back), front, c, back)
  {
    RepeatIs(c, n);
    var out := front + (Repeat(c, n) + back);
    assert out[|out| - |back|..] == back;
  }

  lemma Joins(a: string, b: string, c: string)
    ensures a + (b + c) == a + b + c && c + "" == c && "" + b == b
  {
  }

  /** Where the parts of a field stand: with the flag - the number comes first, and otherwise last, with its sign
      beside it if blanks fill the field and in front of all if zeros do. */
  lemma FieldIsAligned(text: string, negative: bool, f: Field)
    ensures var out, sign := Layout(text, negative, f), if negative then "-" else "";
            && |out| == Max(f.width, |sign| + |text|)
            && if f.left then Framed(out, sign + text, if f.zero then '0' else ' ', "")
               else if f.zero then Framed(out, sign, '0', text)
               else Framed(out, "", ' ', sign + text)
  {
    var n, sign := Padding(text, negative, f), Sign(negative);
    LayoutIs(text, negative, f);
    if f.left {
      FramedByRepeat(sign + text, Fill(f), n, "");
      Joins(sign, text, Repeat(Fill(f), n));
    } else if f.zero {
      FramedByRepeat(sign, '0', n, text);
    } else {
      FramedByRepeat("", ' ', n, sign + text);
      Joins("", Repeat(' ', n), sign + text);
    }
  }

  function TrimLeft(s: string): string {
    if s != "" && s[0] == ' ' then TrimLeft(s[1..]) else s
  }

  function TrimRight(s: string): string {
    if s != "" && s[|s| - 1] == ' ' then TrimRight(s[..|s| - 1]) else s
  }

  function Signed(negative: bool, n: nat): int {
    if negative then 0 - n else n
  }

  /** The number a reader takes a field for. */
  function Denoted(field: string, base: nat): int {
    var s := TrimRight(TrimLeft(field));
    if s != "" && s[0] == '-' then Signed(true, Number(s[1..], base)) else Number(s, base)
  }

  lemma {:induction false} TrimsLeft(n: int, s: string)
    requires s == "" || s[0] != ' '
    ensures TrimLeft(Repeat(' ', n) + s) == s
    decreases Max(n, 0)
  {
    if n > 0 {
      RepeatFront(' ', n);
      assert (Repeat(' ', n) + s)[1..] == Repeat(' ', n - 1) + s;
      TrimsLeft(n - 1, s);
    } else {
      assert Repeat(' ', n) + s == s;
    }
  }

  lemma {:induction false} RepeatFront(c: char, n: int)
    requires 0 < n
    ensures Repeat(c, n) == [c] + Repeat(c, n - 1)
  {
    if n > 1 {
      RepeatFront(c, n - 1);
    }
  }

  lemma {:induction false} TrimsRight(n: int, s: string)
    requires s == "" || s[|s| - 1] != ' '
    ensures TrimRight(s + Repeat(' ', n)) == s
    decreases Max(n, 0)
  {
    var t := s + Repeat(' ', n);
    if n > 0 {
      assert t[..|t| - 1] == s + Repeat(' ', n - 1);
      TrimsRight(n - 1, s);
    } else {
      assert t == s;
    }
  }

  lemma {:induction false} ZerosBefore(n: int, s: string, base: nat)
    ensures Number(Repeat('0', n) + s, base) == Number(s, base)
    decreases |s|, Max(n, 0)
  {
    var t := Repeat('0', n) + s;
    if s != "" {
      assert t[..|t| - 1] == Repeat('0', n) + s[..|s| - 1];
      ZerosBefore(n, s[..|s| - 1], base);
    } else if n > 0 {
      assert t[..|t| - 1] == Repeat('0', n - 1) + s;
      ZerosBefore(n - 1, s, base);
    }
  }

  lemma {:induction false} ZerosBehind(n: int, s: string, base: nat)
    ensures Number(s + Repeat('0', n), base) == Number(s, base) * Pow(base, Max(n, 0))
    decreases Max(n, 0)
  {
    if n > 0 {
      assert s + Repeat('0', n) == s + Repeat('0', n - 1) + ['0'];
      NumberGrows(s + Repeat('0', n - 1), '0', base);
      ZerosBehind(n - 1, s, base);
      Regroup(Number(s, base), Pow(base, n - 1), base);
    } else {
      assert s + Repeat('0', n) == s;
    }
  }

  lemma Regroup(a: nat, b: nat, c: nat)
    ensures a * b * c == a * (c * b)
  {
  }

  predicate Solid(text: string) {
    text != "" && IsDigit(text[0]) && IsDigit(text[|text| - 1])
  }

  /** A sign and digits, with nothing else around them. */
  lemma {:induction false} PlainDenotes(text: string, negative: bool, base: nat)
    requires Solid(text)
    ensures TrimLeft(Sign(negative) + text) == TrimRight(Sign(negative) + text) == Sign(negative) + text
    ensures Denoted(Sign(negative) + text, base) == Signed(negative, Number(text, base))
  {
    var s := Sign(negative) + text;
    assert s[|s| - 1] == text[|text| - 1] && s[0] == if negative then '-' else text[0];
    assert negative ==> s[1..] == text;
    assert !negative ==> s == text;
  }

  lemma {:induction false} BlanksDenote(text: string, negative: bool, base: nat, n: int)
    requires Solid(text)
    ensures Denoted(Repeat(' ', n) + (Sign(negative) + text), base) == Signed(negative, Number(text, base))
    ensures Denoted(Sign(negative) + text + Repeat(' ', n), base) == Signed(negative, Number(text, base))
  {
    var s := Sign(negative) + text;
    PlainDenotes(text, negative, base);
    assert s[|s| - 1] == text[|text| - 1] && s[0] == if negative then '-' else text[0];
    TrimsLeft(n, s);
    TrimsRight(n, s);
    assert (s + Repeat(' ', n))[0] == s[0];
  }

  lemma {:induction false} ZerosDenote(text: string, negative: bool, base: nat, n: int)
    requires Solid(text)
    ensures Denoted(Sign(negative) + (Repeat('0', n) + text), base) == Signed(negative, Number(text, base))
    ensures Denoted(Sign(negative) + (text + Repeat('0', n)), base)
            == Signed(negative, Number(text, base) * Pow(base, Max(n, 0)))
  {
    if n > 0 {
      RepeatFront('0', n);
    }
    var before, behind := Repeat('0', n) + text, text + Repeat('0', n);
    assert Solid(before) && Solid(behind);
    ZerosBefore(n, text, base);
    ZerosBehind(n, text, base);
    PlainDenotes(before, negative, base);
    PlainDenotes(behind, negative, base);
  }

  lemma LayoutIs(text: string, negative: bool, f: Field)
    ensures var pad, sign := Repeat(Fill(f), Padding(text, negative, f)), Sign(negative);
            Layout(text, negative, f)
            == if f.zero then (if f.left then sign + (text + pad) else sign + (pad + text))
               else (if f.left then sign + text + pad else pad + (sign + text))
  {
  }

  // ---------------------------------------------------------------- the digits that are shown

  /** n with z zeros behind it. */
  function WithZeros(n: nat, base: nat, z: nat): nat {
    n * Pow(base, z)
  }

  /** u without its last k digits. */
  function Leading(u: nat, base: nat, k: nat): nat
    requires IsBase(base)
  {
    if k == 0 then u else Leading(u / base, base, k - 1)
  }

  /** The last k digits of u are zeros. */
  predicate EndsInZeros(u: nat, base: nat, k: nat)
    requires IsBase(base)
  {
    k == 0 || (u % base == 0 && EndsInZeros(u / base, base, k - 1))
  }

  lemma OneDigit(u: nat, base: nat, l: nat, p: nat)
    requires IsBase(base) && l * p <= u / base < l * p + p
    ensures l * (base * p) <= u < l * (base * p) + base * p
    ensures u == l * (base * p) <==> u % base == 0 && u / base == l * p
  {
    var a := l * p;
    assert l * (base * p) == base * a;
    Divide(u, base);
    if base == 8 {
    } else if base == 10 {
    } else {
    }
  }

  /** The other digits are the remainder. */
  lemma {:induction false} LeadingIs(u: nat, base: nat, k: nat)
    requires IsBase(base)
    ensures var a := Leading(u, base, k) * Pow(base, k); a <= u < a + Pow(base, k)
    ensures u == Leading(u, base, k) * Pow(base, k) <==> EndsInZeros(u, base, k)
  {
    if k > 0 {
      LeadingIs(u / base, base, k - 1);
      OneDigit(u, base, Leading(u / base, base, k - 1), Pow(base, k - 1));
    }
  }

  lemma {:induction false} AllDenote(u: nat, base: nat, table: string)
    requires IsBase(base) && (table == LOWER || table == UPPER)
    ensures var d := Digits(u, base, table); Number(d[..|d| - 0], base) == u
  {
    var d := Digits(u, base, table);
    DigitsDenote(u, base, table);
    assert d[..|d| - 0] == d;
  }

  lemma {:induction false} SamePrefix(d: string, rest: string, c: char, k: nat, base: nat)
    requires d == rest + [c] && 0 < k <= |d|
    ensures Number(d[..|d| - k], base) == Number(rest[..|rest| - (k - 1)], base)
  {
    assert d[..|d| - k] == rest[..|rest| - (k - 1)];
  }

  lemma {:induction false} OneDigitMore(u: nat, base: nat, table: string, k: nat)
    requires IsBase(base) && |table| == 16 && base <= u && 0 < k
    ensures exists c: char :: Digits(u, base, table) == Digits(u / base, base, table) + [c]
    ensures Leading(u, base, k) == Leading(u / base, base, k - 1)
  {
    Divide(u, base);
    assert Digits(u, base, table) == Digits(u / base, base, table) + [table[u % base]];
  }

  /** The first digits denote the number without its last k digits. */
  lemma {:induction false} PrefixDenotes(u: nat, base: nat, table: string, k: nat)
    requires IsBase(base) && (table == LOWER || table == UPPER) && k <= |Digits(u, base, table)|
    ensures var d := Digits(u, base, table); Number(d[..|d| - k], base) == Leading(u, base, k)
    decreases k
  {
    if k == 0 {
      AllDenote(u, base, table);
    } else if u < base {
      NothingDenotes(u, base, table, k);
    } else {
      DivideLess(u, base);
      var q := u / base;
      var d, rest := Digits(u, base, table), Digits(q, base, table);
      OneDigitMore(u, base, table, k);
      var c: char :| d == rest + [c];
      SamePrefix(d, rest, c, k, base);
      PrefixDenotes(q, base, table, k - 1);
    }
  }

  lemma {:induction false} NothingDenotes(u: nat, base: nat, table: string, k: nat)
    requires IsBase(base) && |table| == 16 && u < base && 0 < k <= |Digits(u, base, table)|
    ensures var d := Digits(u, base, table); Number(d[..|d| - k], base) == Leading(u, base, k) == 0
  {
    Divide(u, base);
    assert Digits(u, base, table)[..0] == "" && Leading(0, base, 0) == 0;
  }

  lemma {:induction false} ZerosDenoteNothing(negative: bool, base: nat, n: int)
    ensures Denoted(Sign(negative) + Repeat('0', n), base) == 0
  {
    ZerosBefore(n, "", base);
    assert Repeat('0', n) + "" == Repeat('0', n);
    if n > 0 {
      RepeatFront('0', n);
      PlainDenotes(Repeat('0', n), negative, base);
    } else {
      assert Sign(negative) + "" == Sign(negative);
    }
  }

  lemma {:induction false} BlanksDenoteNothing(negative: bool, base: nat, n: int)
    ensures Denoted(Repeat(' ', n) + Sign(negative), base) == 0 && Denoted(Sign(negative) + Repeat(' ', n), base) == 0
  {
    var sign := Sign(negative);
    TrimsLeft(n, sign);
    TrimsRight(n, sign);
    if sign == "" {
      assert sign + Repeat(' ', n) == Repeat(' ', n) + sign;
    }
  }

  lemma {:induction false} EmptyDenotes(negative: bool, base: nat, f: Field)
    ensures Denoted(Layout("", negative, f), base) == 0
  {
    var n, sign := Padding("", negative, f), Sign(negative);
    LayoutIs("", negative, f);
    ZerosDenoteNothing(negative, base, n);
    BlanksDenoteNothing(negative, base, n);
    assert sign + "" == sign && Repeat('0', n) + "" == Repeat('0', n) && "" + Repeat('0', n) == Repeat('0', n);
  }

  /** With blanks, or zeros on the left, the field denotes the number its text does; with zeros on the right, the number
      with as many zeros appended. */
  lemma {:induction false} TextDenotes(text: string, negative: bool, base: nat, f: Field)
    requires text == "" || Solid(text)
    ensures Denoted(Layout(text, negative, f), base)
            == Signed(negative, WithZeros(Number(text, base), base, Appended(text, negative, f)))
  {
    var n := Padding(text, negative, f);
    if text == "" {
      EmptyDenotes(negative, base, f);
    } else {
      LayoutIs(text, negative, f);
      if f.zero {
        ZerosDenote(text, negative, base, n);
      } else {
        BlanksDenote(text, negative, base, n);
      }
    }
  }

  /** How many zeros the flags put behind the text. */
  function Appended(text: string, negative: bool, f: Field): nat {
    if f.left && f.zero then Max(Padding(text, negative, f), 0) else 0
  }

  /** The digits shown, and how many are not. */
  function ShownDigits(i: int, base: nat, table: string, f: Field): string
    requires IsBase(base) && |table| == 16
  {
    var d := Digits(if i < 0 then -i else i, base, table); d[..Shown(d, f.max)]
  }

  function Hidden(i: int, base: nat, table: string, f: Field): nat
    requires IsBase(base) && |table| == 16
  {
    var d := Digits(if i < 0 then -i else i, base, table); |d| - Shown(d, f.max)
  }

  /** What a field denotes: the number without the digits that are not shown, with the zeros behind it. */
  lemma {:induction false} FieldDenotes(i: int, base: nat, table: string, f: Field)
    requires IsBase(base) && (table == LOWER || table == UPPER)
    ensures var u, text, k := if i < 0 then -i else i, ShownDigits(i, base, table, f), Hidden(i, base, table, f);
            Denoted(Layout(text, i < 0, f), base)
            == Signed(i < 0, WithZeros(Leading(u, base, k), base, Appended(text, i < 0, f)))
  {
    var u := if i < 0 then -i else i;
    var d, text := Digits(u, base, table), ShownDigits(i, base, table, f);
    PrefixDenotes(u, base, table, Hidden(i, base, table, f));
    DigitsArePrintable(u, base, table);
    TextDenotes(text, i < 0, base, f);
  }

  lemma AtLeastTwice(a: nat, b: nat)
    requires 1 < a && 1 <= b
    ensures a * b > 1 && a * b >= 2 * b
  {
    assert a * b == 2 * b + (a - 2) * b;
  }

  lemma {:induction false} PowDoubles(base: nat, m: nat, n: nat)
    requires 1 < base && m < n
    ensures 1 <= Pow(base, m) && 2 * Pow(base, m) <= Pow(base, n)
    decreases n
  {
    AtLeastTwice(base, Pow(base, n - 1));
    if m < n - 1 {
      PowDoubles(base, m, n - 1);
    }
  }

  lemma Distributes(v: nat, b: nat, d: nat)
    ensures v * (b + d) == v * b + v * d
  {
  }

  lemma {:induction false} AtLeastOnce(v: nat, d: nat)
    requires 0 < v
    ensures d <= v * d
  {
    if v > 1 {
      AtLeastOnce(v - 1, d);
      Distributes(d, v - 1, 1);
    }
  }

  lemma TimesLess(v: nat, a: nat, b: nat)
    requires 0 < v && b < a
    ensures v * b + (a - b) <= v * a
  {
    Distributes(v, b, a - b);
    AtLeastOnce(v, a - b);
  }

  /** v times a is u without a remainder of less than a; b is a, less, or at least twice as much. */
  lemma Scaled(u: nat, v: nat, a: nat, b: nat)
    requires v * a <= u < v * a + a && (b == a || b < a || 2 * a <= b)
    ensures v * b == u <==> u == 0 || (b == a && v * a == u)
  {
    if v > 0 {
      if b < a {
        TimesLess(v, a, b);
      } else if a < b {
        TimesLess(v, b, a);
      }
      TimesLess(v, a, 0);
    }
  }

  lemma {:induction false} ScaledLeading(u: nat, base: nat, k: nat, z: nat)
    requires IsBase(base)
    ensures WithZeros(Leading(u, base, k), base, z) == u <==> u == 0 || (z == k && EndsInZeros(u, base, k))
  {
    LeadingIs(u, base, k);
    if z < k {
      PowDoubles(base, z, k);
    } else if k < z {
      PowDoubles(base, k, z);
    }
    Scaled(u, Leading(u, base, k), Pow(base, k), Pow(base, z));
  }

  /** The printed field denotes the number exactly if the number is 0, or as many digits are cut off by the precision as
      zeros are put behind by the flags - and 0, and those digits are zeros; without a precision, if no zeros are put
      behind. */
  lemma {:induction false} FieldDenotesExactly(i: int, base: nat, table: string, f: Field)
    requires IsBase(base) && (table == LOWER || table == UPPER)
    ensures var u, text, k := if i < 0 then -i else i, ShownDigits(i, base, table, f), Hidden(i, base, table, f);
            Denoted(Layout(text, i < 0, f), base) == i
            <==> i == 0 || (Appended(text, i < 0, f) == k && EndsInZeros(u, base, k))
  {
    var u, text, k := if i < 0 then -i else i, ShownDigits(i, base, table, f), Hidden(i, base, table, f);
    FieldDenotes(i, base, table, f);
    ScaledLeading(u, base, k, Appended(text, i < 0, f));
  }
}
