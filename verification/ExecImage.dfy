/** The arguments of a new program: the stack image that execv builds, and its move to the program's own stack. */
module ExecImage {
  const ARG_MAX := 16384
  const WRAP := 0x1_0000_0000

  type Byte = b: nat | b < 256
  type Word = w: nat | w < 0x1_0000_0000

  /** A C string, without the byte 0 that ends it. */
  type Text = s: seq<Byte> | 0 !in s

  // ---------------------------------------------------------------- words in memory

  /** The four bytes of a word, lowest first. */
  function Put(w: Word): (r: seq<Byte>)
    ensures |r| == 4
  {
    [w % 256, w / 256 % 256, w / 65536 % 256, w / 16777216]
  }

  function Get(a: Byte, b: Byte, c: Byte, d: Byte): Word {
    a + 256 * b + 65536 * c + 16777216 * d
  }

  /** The word at place i. */
  function WordAt(m: seq<Byte>, i: nat): Word
    requires i + 4 <= |m|
  {
    Get(m[i], m[i + 1], m[i + 2], m[i + 3])
  }

  lemma GetPut(w: Word)
    ensures var p := Put(w); Get(p[0], p[1], p[2], p[3]) == w
  {
    assert w / 65536 == w / 256 / 256 && w / 16777216 == w / 65536 / 256;
  }

  function Plus(a: int, b: int): Word {
    (a + b) % WRAP
  }

  function Minus(a: int, b: int): Word {
    (a - b) % WRAP
  }

  // ---------------------------------------------------------------- the image

  /** The place of string k behind the pointers and the 0 that ends them. */
  function Offset(argv: seq<Text>, k: nat): (o: nat)
    requires k <= |argv|
    ensures o >= 4 * |argv| + 4 + k
  {
    if k == 0 then 4 * |argv| + 4 else Offset(argv, k - 1) + |argv[k - 1]| + 1
  }

  /** The first k pointers, for an image at base. */
  function Pointers(argv: seq<Text>, base: Word, k: nat): (r: seq<Byte>)
    requires k <= |argv|
    ensures |r| == 4 * k
  {
    if k == 0 then [] else Pointers(argv, base, k - 1) + Put(Plus(base, Offset(argv, k - 1)))
  }

  /** The first k strings. */
  function Strings(argv: seq<Text>, k: nat): (r: seq<Byte>)
    requires k <= |argv|
    ensures |r| == Offset(argv, k) - Offset(argv, 0)
  {
    if k == 0 then [] else Strings(argv, k - 1) + argv[k - 1] + [0]
  }

  function Image(argv: seq<Text>, base: Word): (r: seq<Byte>)
    ensures |r| == Offset(argv, |argv|)
  {
    Pointers(argv, base, |argv|) + [0, 0, 0, 0] + Strings(argv, |argv|)
  }

  // ---------------------------------------------------------------- what a program finds

  /** The string at place i. */
  function TextAt(m: seq<Byte>, i: nat): Text
    decreases |m| - i
  {
    if i >= |m| || m[i] == 0 then [] else [m[i]] + TextAt(m, i + 1)
  }

  /** The arguments that the pointers from place 4 * q on lead to, in memory m that begins at base. */
  function Arguments(m: seq<Byte>, base: Word, q: nat): seq<Text>
    decreases |m| - 4 * q
  {
    if 4 * q + 4 > |m| || WordAt(m, 4 * q) == 0 then []
    else [TextAt(m, Minus(WordAt(m, 4 * q), base))] + Arguments(m, base, q + 1)
  }

  lemma {:induction false} PointerIs(argv: seq<Text>, base: Word, n: nat, k: nat)
    requires k < n <= |argv|
    ensures Pointers(argv, base, n)[4 * k..4 * k + 4] == Put(Plus(base, Offset(argv, k)))
  {
    if k < n - 1 {
      PointerIs(argv, base, n - 1, k);
      assert Pointers(argv, base, n)[4 * k..4 * k + 4] == Pointers(argv, base, n - 1)[4 * k..4 * k + 4];
    }
  }

  lemma {:induction false} OffsetsGrow(argv: seq<Text>, j: nat, k: nat)
    requires j <= k <= |argv|
    ensures Offset(argv, j) <= Offset(argv, k)
    ensures j < k ==> Offset(argv, j) + |argv[j]| + 1 <= Offset(argv, k)
  {
    if j < k {
      OffsetsGrow(argv, j, k - 1);
    }
  }

  lemma PrefixSlice<T>(p: seq<T>, q: seq<T>, a: nat, b: nat)
    requires a <= b <= |p|
    ensures (p + q)[a..b] == p[a..b]
  {
  }

  lemma MiddleSlice<T>(p: seq<T>, q: seq<T>, r: seq<T>)
    ensures (p + q + r)[|p|..|p| + |q|] == q
  {
  }

  lemma {:induction false} StringIs(argv: seq<Text>, n: nat, k: nat)
    requires k < n <= |argv|
    ensures var o := Offset(argv, k) - Offset(argv, 0);
            0 <= o && o + |argv[k]| + 1 <= |Strings(argv, n)|
            && Strings(argv, n)[o..o + |argv[k]| + 1] == argv[k] + [0]
  {
    OffsetsGrow(argv, 0, k);
    OffsetsGrow(argv, k, n);
    var o := Offset(argv, k) - Offset(argv, 0);
    var before, last := Strings(argv, n - 1), argv[n - 1] + [0];
    assert Strings(argv, n) == before + last;
    if k < n - 1 {
      OffsetsGrow(argv, k, n - 1);
      StringIs(argv, n - 1, k);
      PrefixSlice(before, last, o, o + |argv[k]| + 1);
    } else {
      MiddleSlice(before, last, []);
      assert before + last + [] == before + last;
    }
  }

  /** What lies where in an image. */
  lemma {:induction false} ImageHas(argv: seq<Text>, base: Word, k: nat)
    requires k < |argv|
    ensures Offset(argv, k) + |argv[k]| + 1 <= |Image(argv, base)|
    ensures WordAt(Image(argv, base), 4 * k) == Plus(base, Offset(argv, k))
    ensures Image(argv, base)[Offset(argv, k)..Offset(argv, k) + |argv[k]| + 1] == argv[k] + [0]
  {
    OffsetsGrow(argv, k, |argv|);
    ImageHasPointer(argv, base, k);
    ImageHasString(argv, base, k);
  }

  lemma WordInSlice(m: seq<Byte>, i: nat, w: Word)
    requires i + 4 <= |m| && m[i..i + 4] == Put(w)
    ensures WordAt(m, i) == w
  {
    var p := m[i..i + 4];
    assert m[i] == p[0] && m[i + 1] == p[1] && m[i + 2] == p[2] && m[i + 3] == p[3];
    GetPut(w);
  }

  lemma {:induction false} ImageHasPointer(argv: seq<Text>, base: Word, k: nat)
    requires k < |argv|
    ensures WordAt(Image(argv, base), 4 * k) == Plus(base, Offset(argv, k))
  {
    var n := |argv|;
    var p, rest := Pointers(argv, base, n), [0, 0, 0, 0] + Strings(argv, n);
    assert Image(argv, base) == p + rest;
    PointerIs(argv, base, n, k);
    PrefixSlice(p, rest, 4 * k, 4 * k + 4);
    WordInSlice(Image(argv, base), 4 * k, Plus(base, Offset(argv, k)));
  }

  lemma SliceBehind<T>(p: seq<T>, q: seq<T>, a: nat, b: nat)
    requires a <= b <= |q|
    ensures (p + q)[|p| + a..|p| + b] == q[a..b]
  {
  }

  lemma {:induction false} ImageHasString(argv: seq<Text>, base: Word, k: nat)
    requires k < |argv| && Offset(argv, k) + |argv[k]| + 1 <= |Image(argv, base)|
    ensures Image(argv, base)[Offset(argv, k)..Offset(argv, k) + |argv[k]| + 1] == argv[k] + [0]
  {
    var n := |argv|;
    var p, st := Pointers(argv, base, n) + [0, 0, 0, 0], Strings(argv, n);
    var o := Offset(argv, k) - Offset(argv, 0);
    OffsetsGrow(argv, 0, k);
    StringIs(argv, n, k);
    SliceBehind(p, st, o, o + |argv[k]| + 1);
  }

  lemma {:induction false} TextFound(m: seq<Byte>, i: nat, s: Text)
    requires i + |s| + 1 <= |m| && m[i..i + |s| + 1] == s + [0]
    ensures TextAt(m, i) == s
    decreases |s|
  {
    assert m[i] == (s + [0])[0];
    if s != [] {
      assert m[i + 1..i + |s| + 1] == m[i..i + |s| + 1][1..] == s[1..] + [0];
      assert s[0] in s;
      TextFound(m, i + 1, s[1..]);
    }
  }

  /** Pointer q leads to string q. */
  ghost predicate Leads(m: seq<Byte>, base: Word, argv: seq<Text>, q: nat)
    requires q < |argv|
  {
    4 * q + 4 <= |m| && WordAt(m, 4 * q) != 0 && TextAt(m, Minus(WordAt(m, 4 * q), base)) == argv[q]
  }

  lemma {:induction false} PointerFound(argv: seq<Text>, base: Word, q: nat)
    requires q < |argv| && base + |Image(argv, base)| <= WRAP
    ensures Leads(Image(argv, base), base, argv, q)
  {
    var m, o := Image(argv, base), Offset(argv, q);
    assert WordAt(m, 4 * q) == Plus(base, o) && TextAt(m, o) == argv[q] by {
      ImageHas(argv, base, q);
      TextFound(m, o, argv[q]);
    }
    OffsetsGrow(argv, q, |argv|);
    PlusMinus(base, o);
  }

  lemma PlusMinus(base: Word, o: nat)
    requires 0 < o && base + o < WRAP
    ensures Plus(base, o) != 0 && Minus(Plus(base, o), base) == o
  {
  }

  lemma EndFound(argv: seq<Text>, base: Word)
    ensures WordAt(Image(argv, base), 4 * |argv|) == 0
  {
    var m, q := Image(argv, base), |argv|;
    assert m[4 * q] == m[4 * q + 1] == m[4 * q + 2] == m[4 * q + 3] == 0;
  }

  lemma {:induction false} ArgumentsFound(m: seq<Byte>, base: Word, argv: seq<Text>, q: nat)
    requires q <= |argv| && 4 * |argv| + 4 <= |m| && WordAt(m, 4 * |argv|) == 0
    requires AllLead(m, base, argv)
    ensures Arguments(m, base, q) == argv[q..]
    decreases |argv| - q
  {
    if q < |argv| {
      assert Leads(m, base, argv, q);
      ArgumentsFound(m, base, argv, q + 1);
    }
  }

  /** A program whose stack holds the image finds the arguments it was given, in order. */
  lemma {:induction false} ImageMeansArguments(argv: seq<Text>, base: Word)
    requires base + |Image(argv, base)| <= WRAP
    ensures Arguments(Image(argv, base), base, 0) == argv
  {
    PointersFound(argv, base);
    EndFound(argv, base);
    ArgumentsFound(Image(argv, base), base, argv, 0);
  }

  ghost predicate AllLead(m: seq<Byte>, base: Word, argv: seq<Text>) {
    forall k: nat :: k < |argv| ==> Leads(m, base, argv, k)
  }

  lemma {:induction false} PointersFound(argv: seq<Text>, base: Word)
    requires base + |Image(argv, base)| <= WRAP
    ensures AllLead(Image(argv, base), base, argv)
  {
    forall k: nat | k < |argv|
      ensures Leads(Image(argv, base), base, argv, k)
    {
      PointerFound(argv, base, k);
    }
  }

  // ---------------------------------------------------------------- what is refused

  /** The arguments are refused before or while string k or a later one is stored. */
  predicate RefusedFrom(argv: seq<Text>, k: nat)
    requires k <= |argv|
    decreases |argv| - k
  {
    k < |argv| && (Offset(argv, k) + |argv[k]| + 1 >= ARG_MAX || RefusedFrom(argv, k + 1))
  }

  predicate TooBig(argv: seq<Text>) {
    4 * |argv| + 8 >= ARG_MAX || RefusedFrom(argv, 0)
  }

  lemma {:induction false} RefusedIfLarge(argv: seq<Text>, k: nat)
    requires k <= |argv|
    ensures RefusedFrom(argv, k) <==> k < |argv| && Offset(argv, |argv|) >= ARG_MAX
    decreases |argv| - k
  {
    if k < |argv| {
      RefusedIfLarge(argv, k + 1);
      OffsetsGrow(argv, k, |argv|);
    }
  }

  /** Arguments are refused exactly if their image would not be smaller than the space for it. */
  lemma AcceptedExactly(argv: seq<Text>, base: Word)
    ensures TooBig(argv) <==> |Image(argv, base)| >= ARG_MAX
  {
    RefusedIfLarge(argv, 0);
    OffsetsGrow(argv, 0, |argv|);
  }
}
