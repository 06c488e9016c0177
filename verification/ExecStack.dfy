/** Building the stack image in execv, and relocating it in do_exec, as they are written: loops over memory. */
module ExecStack {
  import opened ExecImage

  const E2BIG := -1

  // ---------------------------------------------------------------- pieces of memory

  method PutWord(a: array<Byte>, i: nat, w: Word)
    requires i + 4 <= a.Length
    modifies a
    ensures a[..] == old(a[..i]) + Put(w) + old(a[i + 4..])
  {
    a[i], a[i + 1], a[i + 2], a[i + 3] := w % 256, w / 256 % 256, w / 65536 % 256, w / 16777216;
  }

  /** strcpy. */
  method CopyText(a: array<Byte>, i: nat, s: Text)
    requires i + |s| + 1 <= a.Length
    modifies a
    ensures a[..] == old(a[..i]) + s + [0] + old(a[i + |s| + 1..])
  {
    var k := 0;
    while k < |s|
      invariant 0 <= k <= |s| && a[i..i + k] == s[..k]
      invariant a[..i] == old(a[..i]) && a[i + k..] == old(a[i + k..])
    {
      a[i + k] := s[k];
      assert a[i..i + k + 1] == a[i..i + k] + [s[k]];
      k := k + 1;
    }
    a[i + k] := 0;
    assert s[..k] == s;
  }

  // ---------------------------------------------------------------- execv

  /** What the stack holds once k strings and their pointers are stored. */
  ghost predicate Stored(m: seq<Byte>, argv: seq<Text>, base: Word, k: nat, len: nat) {
    && k <= |argv| && len == Offset(argv, k) <= |m|
    && m[..4 * k] == Pointers(argv, base, k)
    && m[4 * |argv|..4 * |argv| + 4] == [0, 0, 0, 0]
    && m[4 * |argv| + 4..len] == Strings(argv, k)
  }

  lemma StoredIsImage(m: seq<Byte>, argv: seq<Text>, base: Word, len: nat)
    requires Stored(m, argv, base, |argv|, len)
    ensures m[..len] == Image(argv, base)
  {
    var n := 4 * |argv|;
    assert m[..len] == m[..n] + m[n..n + 4] + m[n + 4..len];
  }

  /** String k and its pointer are stored. */
  lemma StoredGrows(m: seq<Byte>, argv: seq<Text>, base: Word, k: nat, len: nat, m1: seq<Byte>, m2: seq<Byte>)
    requires k < |argv| && Stored(m, argv, base, k, len) && len + |argv[k]| + 1 <= |m|
    requires m1 == m[..4 * k] + Put(Plus(base, len)) + m[4 * k + 4..]
    requires m2 == m1[..len] + argv[k] + [0] + m1[len + |argv[k]| + 1..]
    ensures Stored(m2, argv, base, k + 1, len + |argv[k]| + 1)
  {
    var n, len2 := 4 * |argv|, len + |argv[k]| + 1;
    assert m2[..4 * k + 4] == m1[..4 * k + 4] == m[..4 * k] + Put(Plus(base, len));
    assert m2[n..n + 4] == m[n..n + 4];
    assert m2[n + 4..len2] == m[n + 4..len] + argv[k] + [0];
  }

  /** The body of the second loop of execv; false if there is no room. */
  method StoreString(execStack: array<Byte>, argv: seq<Text>, base: Word, k: nat, len: nat) returns (ok: bool)
    requires execStack.Length == ARG_MAX && k < |argv| && Stored(execStack[..], argv, base, k, len)
    modifies execStack
    ensures ok <==> len + |argv[k]| + 1 < ARG_MAX
    ensures ok ==> Stored(execStack[..], argv, base, k + 1, len + |argv[k]| + 1)
  {
    ghost var m := execStack[..];
    PutWord(execStack, 4 * k, Plus(base, len));
    if len + |argv[k]| + 1 >= ARG_MAX {
      return false;
    }
    ghost var m1 := execStack[..];
    CopyText(execStack, len, argv[k]);
    StoredGrows(m, argv, base, k, len, m1, execStack[..]);
    ok := true;
  }

  /** The first loop of execv: the size of the pointers. */
  method PointerSpace(argv: seq<Text>) returns (len: nat)
    ensures len == 4 * |argv|
  {
    len := 0;
    var vp := 0;
    while vp < |argv|
      invariant 0 <= vp <= |argv| && len == 4 * vp
    {
      len := len + 4;
      vp := vp + 1;
    }
  }

  /** The second loop of execv. */
  method StoreStrings(execStack: array<Byte>, argv: seq<Text>, base: Word, len0: nat) returns (len: int)
    requires execStack.Length == ARG_MAX && len0 < ARG_MAX && Stored(execStack[..], argv, base, 0, len0)
    modifies execStack
    ensures len == E2BIG <==> RefusedFrom(argv, 0)
    ensures len != E2BIG ==> 0 <= len < ARG_MAX && Stored(execStack[..], argv, base, |argv|, len)
  {
    len := len0;
    var k := 0;
    while k < |argv|
      invariant 0 <= k <= |argv| && 0 <= len < ARG_MAX && Stored(execStack[..], argv, base, k, len)
      invariant RefusedFrom(argv, 0) <==> RefusedFrom(argv, k)
    {
      var ok := StoreString(execStack, argv, base, k, len);
      if !ok {
        return E2BIG;
      }
      len := len + |argv[k]| + 1;
      k := k + 1;
    }
  }

  lemma NothingStored(m: seq<Byte>, argv: seq<Text>, base: Word)
    requires 4 * |argv| + 4 <= |m| && m[4 * |argv|..4 * |argv| + 4] == Put(0)
    ensures Stored(m, argv, base, 0, 4 * |argv| + 4)
  {
  }

  /** execv, up to the call of the memory manager: the length of the image, or E2BIG. The stack lies at address base. */
  method BuildStack(argv: seq<Text>, base: Word, execStack: array<Byte>) returns (len: int)
    requires execStack.Length == ARG_MAX
    modifies execStack
    ensures len == E2BIG <==> TooBig(argv)
    ensures len != E2BIG ==> 0 <= len < ARG_MAX && execStack[..len] == Image(argv, base)
  {
    len := PointerSpace(argv);
    if len + 2 * 4 >= ARG_MAX {
      return E2BIG;
    }
    PutWord(execStack, len, 0);
    assert execStack[..][len..len + 4] == Put(0);
    NothingStored(execStack[..], argv, base);
    len := StoreStrings(execStack, argv, base, len + 4);
    if len != E2BIG {
      StoredIsImage(execStack[..], argv, base, len);
      assert execStack[..][..len] == execStack[..len];
    }
  }

  // ---------------------------------------------------------------- do_exec

  /** What the buffer holds once k pointers are relocated from base to base1. */
  ghost predicate Relocated(m: seq<Byte>, argv: seq<Text>, base: Word, base1: Word, k: nat) {
    var image := Image(argv, base);
    k <= |argv| && |image| <= |m| && m[..4 * k] == Pointers(argv, base1, k) && m[4 * k..|image|] == image[4 * k..]
  }

  lemma PlusAgain(base: Word, o: int, delta: int)
    ensures Plus(Plus(base, o), delta) == Plus(Plus(base, delta), o)
  {
  }

  lemma SameWord(m: seq<Byte>, argv: seq<Text>, base: Word, base1: Word, k: nat)
    requires Relocated(m, argv, base, base1, k)
    ensures 4 * k + 4 <= |m| && WordAt(m, 4 * k) == WordAt(Image(argv, base), 4 * k)
  {
    var image := Image(argv, base);
    var rest := m[4 * k..|image|];
    assert rest[0] == m[4 * k] && rest[1] == m[4 * k + 1] && rest[2] == m[4 * k + 2] && rest[3] == m[4 * k + 3];
  }

  lemma {:induction false} RelocatedWord(m: seq<Byte>, argv: seq<Text>, base: Word, base1: Word, k: nat)
    requires Relocated(m, argv, base, base1, k) && base + |Image(argv, base)| <= WRAP
    ensures 4 * k + 4 <= |m|
    ensures k < |argv| ==> WordAt(m, 4 * k) == Plus(base, Offset(argv, k)) != 0
    ensures k == |argv| ==> WordAt(m, 4 * k) == 0
  {
    SameWord(m, argv, base, base1, k);
    if k < |argv| {
      ImageHas(argv, base, k);
      OffsetsGrow(argv, k, |argv|);
      PlusMinus(base, Offset(argv, k));
    } else {
      EndFound(argv, base);
    }
  }

  lemma {:induction false} RelocatedGrows(m: seq<Byte>, argv: seq<Text>, base: Word, base1: Word, k: nat, m1: seq<Byte>)
    requires k < |argv| && Relocated(m, argv, base, base1, k)
    requires m1 == m[..4 * k] + Put(Plus(base1, Offset(argv, k))) + m[4 * k + 4..]
    ensures Relocated(m1, argv, base, base1, k + 1)
  {
    var image := Image(argv, base);
    assert m1[..4 * k + 4] == m[..4 * k] + Put(Plus(base1, Offset(argv, k)));
    assert m1[4 * k + 4..|image|] == m[4 * k..|image|][4..];
    assert image[4 * k + 4..] == image[4 * k..][4..];
  }

  lemma RelocatedIsImage(m: seq<Byte>, argv: seq<Text>, base: Word, base1: Word)
    requires Relocated(m, argv, base, base1, |argv|)
    ensures IsImage(m, argv, base1)
  {
    var image, n := Image(argv, base), 4 * |argv|;
    assert m[..|image|] == m[..n] + m[n..|image|];
    assert image[n..] == [0, 0, 0, 0] + Strings(argv, |argv|);
  }

  /** One pointer is relocated. */
  method RelocateOne(stackBuf: array<Byte>, k: nat, delta: int, ghost argv: seq<Text>, ghost base: Word)
    requires k < |argv| && base + |Image(argv, base)| <= WRAP
    requires Relocated(stackBuf[..], argv, base, Plus(base, delta), k)
    modifies stackBuf
    ensures Relocated(stackBuf[..], argv, base, Plus(base, delta), k + 1)
  {
    ghost var m := stackBuf[..];
    RelocatedWord(m, argv, base, Plus(base, delta), k);
    PlusAgain(base, Offset(argv, k), delta);
    PutWord(stackBuf, 4 * k, Plus(WordAt(stackBuf[..], 4 * k), delta));
    RelocatedGrows(m, argv, base, Plus(base, delta), k, stackBuf[..]);
  }

  lemma {:induction false} NothingRelocated(m: seq<Byte>, argv: seq<Text>, base: Word, base1: Word)
    requires |Image(argv, base)| <= |m| && m[..|Image(argv, base)|] == Image(argv, base)
    ensures Relocated(m, argv, base, base1, 0)
  {
    assert m[0..|Image(argv, base)|] == m[..|Image(argv, base)|];
  }

  /** The relocation loop of do_exec: the image moves from stackPtr to the top of the program's memory. */
  method Relocate(stackBuf: array<Byte>, stackPtr: Word, mapSize: Word, ghost argv: seq<Text>) returns (argc: nat)
    requires |Image(argv, stackPtr)| <= stackBuf.Length && stackPtr + |Image(argv, stackPtr)| <= WRAP
    requires stackBuf[..][..|Image(argv, stackPtr)|] == Image(argv, stackPtr)
    modifies stackBuf
    ensures argc == |argv| && IsImage(stackBuf[..], argv, Minus(mapSize, ARG_MAX))
  {
    var newStack := mapSize - ARG_MAX;
    var delta := newStack - stackPtr;
    ghost var base1 := Plus(stackPtr, delta);
    argc := 0;
    NothingRelocated(stackBuf[..], argv, stackPtr, base1);
    RelocatedWord(stackBuf[..], argv, stackPtr, base1, 0);
    while WordAt(stackBuf[..], 4 * argc) != 0
      invariant argc <= |argv| && Relocated(stackBuf[..], argv, stackPtr, base1, argc)
      invariant 4 * argc + 4 <= stackBuf.Length
      invariant WordAt(stackBuf[..], 4 * argc) == 0 <==> argc == |argv|
      decreases |argv| - argc
    {
      RelocateOne(stackBuf, argc, delta, argv, stackPtr);
      argc := argc + 1;
      RelocatedWord(stackBuf[..], argv, stackPtr, base1, argc);
    }
    RelocatedIsImage(stackBuf[..], argv, stackPtr, base1);
  }

  ghost predicate IsImage(m: seq<Byte>, argv: seq<Text>, base: Word) {
    |Image(argv, base)| <= |m| && m[..|Image(argv, base)|] == Image(argv, base)
  }

  /** A program with memory m at base finds these arguments. */
  ghost predicate Finds(m: seq<Byte>, base: Word, argv: seq<Text>) {
    var len := |Image(argv, base)|;
    len <= |m| && Arguments(m[..len], base, 0) == argv
  }

  lemma {:induction false} FindsImage(m: seq<Byte>, base: Word, argv: seq<Text>)
    requires IsImage(m, argv, base) && base + |Image(argv, base)| <= WRAP
    ensures Finds(m, base, argv)
  {
    ImageMeansArguments(argv, base);
  }

  /** From the arguments of execv to the relocated image: the new program is to find the same arguments, and their
      number. */
  method ExecArguments(argv: seq<Text>, stackPtr: Word, mapSize: Word, execStack: array<Byte>, stackBuf: array<Byte>)
    returns (argc: int)
    requires execStack != stackBuf && execStack.Length == stackBuf.Length == ARG_MAX && ARG_MAX <= mapSize
    requires stackPtr + ARG_MAX <= WRAP
    modifies execStack, stackBuf
    ensures argc == E2BIG <==> |Image(argv, stackPtr)| >= ARG_MAX
    ensures argc != E2BIG ==> argc == |argv| && Finds(stackBuf[..], Minus(mapSize, ARG_MAX), argv)
  {
    AcceptedExactly(argv, stackPtr);
    var len := BuildStack(argv, stackPtr, execStack);
    if len == E2BIG {
      return E2BIG;
    }
    argc := MoveStack(execStack, len, stackPtr, mapSize, stackBuf, argv);
    FindsImage(stackBuf[..], Minus(mapSize, ARG_MAX), argv);
  }

  /** The part of do_exec that concerns the stack. */
  method MoveStack(execStack: array<Byte>, len: nat, stackPtr: Word, mapSize: Word, stackBuf: array<Byte>,
                   ghost argv: seq<Text>)
    returns (argc: nat)
    requires execStack != stackBuf && len <= execStack.Length == stackBuf.Length && stackPtr + len <= WRAP
    requires execStack[..len] == Image(argv, stackPtr)
    modifies stackBuf
    ensures argc == |argv| && IsImage(stackBuf[..], argv, Minus(mapSize, ARG_MAX))
  {
    CopyStack(execStack, len, stackBuf);
    assert stackBuf[..][..len] == stackBuf[..len];
    argc := Relocate(stackBuf, stackPtr, mapSize, argv);
  }

  /** do_exec copies the caller's stack to its own buffer. */
  method CopyStack(execStack: array<Byte>, len: nat, stackBuf: array<Byte>)
    requires len <= execStack.Length && len <= stackBuf.Length && execStack != stackBuf
    modifies stackBuf
    ensures stackBuf[..len] == execStack[..len]
  {
    forall i | 0 <= i < len {
      stackBuf[i] := execStack[i];
    }
  }
}
