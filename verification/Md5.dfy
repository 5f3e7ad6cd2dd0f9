/** The unrolled MD5 block of lib/md5_one_block.c against the loop of RFC 1321. */
module Md5 {
  import opened Words

  // ---- Section 3.4 of RFC 1321 ----

  /** The registers, the one that changes next first. */
  datatype Regs = Regs(a: bv32, b: bv32, c: bv32, d: bv32)

  type Block = x: seq<bv32> | |x| == 16 witness seq(16, _ => 0)

  /** F, G, H and I by round. */
  function Mix(i: nat, x: bv32, y: bv32, z: bv32): bv32 {
    if i < 16 then (x & y) | (!x & z)
    else if i < 32 then (x & z) | (y & !z)
    else if i < 48 then x ^ y ^ z
    else y ^ (x | !z)
  }

  function Index(i: nat): (k: nat)
    ensures k < 16
  {
    if i < 16 then i else if i < 32 then (5 * i + 1) % 16 else if i < 48 then (3 * i + 5) % 16 else (7 * i) % 16
  }

  predicate IsAmount(n: nat) {
    || n == 4 || n == 5 || n == 6 || n == 7 || n == 9 || n == 10 || n == 11 || n == 12
    || n == 14 || n == 15 || n == 16 || n == 17 || n == 20 || n == 21 || n == 22 || n == 23
  }

  function Amount(i: nat): (n: nat)
    ensures n < 32
  {
    var j := i % 4;
    if i < 16 then (if j == 0 then 7 else if j == 1 then 12 else if j == 2 then 17 else 22)
    else if i < 32 then (if j == 0 then 5 else if j == 1 then 9 else if j == 2 then 14 else 20)
    else if i < 48 then (if j == 0 then 4 else if j == 1 then 11 else if j == 2 then 16 else 23)
    else (if j == 0 then 6 else if j == 1 then 10 else if j == 2 then 15 else 21)
  }

  /** The constants, one function for each round. */
  function T1(j: nat): bv32 {
    if j == 0 then 0xd76aa478 else if j == 1 then 0xe8c7b756
    else if j == 2 then 0x242070db else if j == 3 then 0xc1bdceee
    else if j == 4 then 0xf57c0faf else if j == 5 then 0x4787c62a
    else if j == 6 then 0xa8304613 else if j == 7 then 0xfd469501
    else if j == 8 then 0x698098d8 else if j == 9 then 0x8b44f7af
    else if j == 10 then 0xffff5bb1 else if j == 11 then 0x895cd7be
    else if j == 12 then 0x6b901122 else if j == 13 then 0xfd987193
    else if j == 14 then 0xa679438e else 0x49b40821
  }

  function T2(j: nat): bv32 {
    if j == 0 then 0xf61e2562 else if j == 1 then 0xc040b340
    else if j == 2 then 0x265e5a51 else if j == 3 then 0xe9b6c7aa
    else if j == 4 then 0xd62f105d else if j == 5 then 0x02441453
    else if j == 6 then 0xd8a1e681 else if j == 7 then 0xe7d3fbc8
    else if j == 8 then 0x21e1cde6 else if j == 9 then 0xc33707d6
    else if j == 10 then 0xf4d50d87 else if j == 11 then 0x455a14ed
    else if j == 12 then 0xa9e3e905 else if j == 13 then 0xfcefa3f8
    else if j == 14 then 0x676f02d9 else 0x8d2a4c8a
  }

  function T3(j: nat): bv32 {
    if j == 0 then 0xfffa3942 else if j == 1 then 0x8771f681
    else if j == 2 then 0x6d9d6122 else if j == 3 then 0xfde5380c
    else if j == 4 then 0xa4beea44 else if j == 5 then 0x4bdecfa9
    else if j == 6 then 0xf6bb4b60 else if j == 7 then 0xbebfbc70
    else if j == 8 then 0x289b7ec6 else if j == 9 then 0xeaa127fa
    else if j == 10 then 0xd4ef3085 else if j == 11 then 0x04881d05
    else if j == 12 then 0xd9d4d039 else if j == 13 then 0xe6db99e5
    else if j == 14 then 0x1fa27cf8 else 0xc4ac5665
  }

  function T4(j: nat): bv32 {
    if j == 0 then 0xf4292244 else if j == 1 then 0x432aff97
    else if j == 2 then 0xab9423a7 else if j == 3 then 0xfc93a039
    else if j == 4 then 0x655b59c3 else if j == 5 then 0x8f0ccc92
    else if j == 6 then 0xffeff47d else if j == 7 then 0x85845dd1
    else if j == 8 then 0x6fa87e4f else if j == 9 then 0xfe2ce6e0
    else if j == 10 then 0xa3014314 else if j == 11 then 0x4e0811a1
    else if j == 12 then 0xf7537e82 else if j == 13 then 0xbd3af235
    else if j == 14 then 0x2ad7d2bb else 0xeb86d391
  }

  function T(i: nat): bv32 {
    if i < 16 then T1(i) else if i < 32 then T2(i - 16) else if i < 48 then T3(i - 32) else T4(i - 48)
  }

  function Left1(a: bv32): bv32 { (a << 1) | (a >> 31) }

  function Right1(a: bv32): bv32 { (a >> 1) | (a << 31) }

  /** Rotation to the left, by one place at a time. */
  function Rotl(a: bv32, n: nat): bv32 {
    if n == 0 then a else Left1(Rotl(a, n - 1))
  }

  function Rotr(a: bv32, n: nat): bv32
    decreases n
  {
    if n == 0 then a else Rotr(Right1(a), n - 1)
  }

  function Plus(x: bv32, y: bv32): bv32 { x + y }

  function Minus(x: bv32, y: bv32): bv32 { Not(Plus(Not(x), y)) }

  function Next(x: bv32): bv32 { x + 1 }

  /** Counting: an even word gets its lowest bit, an odd one counts in its upper bits and clears the lowest. */
  lemma NextBits(x: bv32)
    ensures x & 1 == 0 ==> Next(x) == x | 1
    ensures x & 1 == 1 ==> Next(x) == Next(x >> 1) << 1
  {
    assert Next(x) == x + 1;
    assert Next(x >> 1) == (x >> 1) + 1;
  }

  /** Addition is repeated counting. */
  lemma PlusCounts(x: bv32, y: bv32)
    ensures Plus(x, 0) == x && Plus(x, Next(y)) == Next(Plus(x, y))
  {
    assert Next(y) == y + 1;
    assert Plus(x, y + 1) == x + (y + 1);
    assert Plus(x, y) == x + y;
    assert Next(x + y) == (x + y) + 1;
  }

  function Plus3(f: bv32, w: bv32, k: bv32): (r: bv32)
    ensures r == w + k + f
  {
    f + w + k
  }

  /** What is added to the first register of step i. */
  function Addend(x: Block, i: nat, b: bv32, c: bv32, d: bv32): bv32 {
    Plus3(Mix(i, b, c, d), x[Index(i)], T(i))
  }

  function NextStep(x: Block, i: nat, s: Regs): Regs {
    Regs(s.d, Plus(s.b, Rotl(Plus(s.a, Addend(x, i, s.b, s.c, s.d)), Amount(i))), s.b, s.c)
  }

  function Steps(x: Block, n: nat, s: Regs): Regs {
    if n == 0 then s else NextStep(x, n - 1, Steps(x, n - 1, s))
  }

  // ---- Rotations ----

  /** `ROTATE`, for the amounts in use. */
  function Rotate(a: bv32, n: nat): bv32 {
    if n == 4 then (a << 4) ^ (a >> 28)
    else if n == 5 then (a << 5) ^ (a >> 27)
    else if n == 6 then (a << 6) ^ (a >> 26)
    else if n == 7 then (a << 7) ^ (a >> 25)
    else if n == 9 then (a << 9) ^ (a >> 23)
    else if n == 10 then (a << 10) ^ (a >> 22)
    else if n == 11 then (a << 11) ^ (a >> 21)
    else if n == 12 then (a << 12) ^ (a >> 20)
    else if n == 14 then (a << 14) ^ (a >> 18)
    else if n == 15 then (a << 15) ^ (a >> 17)
    else if n == 16 then (a << 16) ^ (a >> 16)
    else if n == 17 then (a << 17) ^ (a >> 15)
    else if n == 20 then (a << 20) ^ (a >> 12)
    else if n == 21 then (a << 21) ^ (a >> 11)
    else if n == 22 then (a << 22) ^ (a >> 10)
    else (a << 23) ^ (a >> 9)
  }

  lemma OneMore(a: bv32)
    ensures Left1(a) == (a << 1) ^ (a >> 31)
    ensures Left1((a << 1) ^ (a >> 31)) == (a << 2) ^ (a >> 30)
    ensures Left1((a << 2) ^ (a >> 30)) == (a << 3) ^ (a >> 29)
    ensures Left1((a << 3) ^ (a >> 29)) == (a << 4) ^ (a >> 28)
    ensures Left1((a << 4) ^ (a >> 28)) == (a << 5) ^ (a >> 27)
    ensures Left1((a << 5) ^ (a >> 27)) == (a << 6) ^ (a >> 26)
    ensures Left1((a << 6) ^ (a >> 26)) == (a << 7) ^ (a >> 25)
    ensures Left1((a << 7) ^ (a >> 25)) == (a << 8) ^ (a >> 24)
    ensures Left1((a << 8) ^ (a >> 24)) == (a << 9) ^ (a >> 23)
    ensures Left1((a << 9) ^ (a >> 23)) == (a << 10) ^ (a >> 22)
    ensures Left1((a << 10) ^ (a >> 22)) == (a << 11) ^ (a >> 21)
    ensures Left1((a << 11) ^ (a >> 21)) == (a << 12) ^ (a >> 20)
    ensures Left1((a << 12) ^ (a >> 20)) == (a << 13) ^ (a >> 19)
    ensures Left1((a << 13) ^ (a >> 19)) == (a << 14) ^ (a >> 18)
    ensures Left1((a << 14) ^ (a >> 18)) == (a << 15) ^ (a >> 17)
    ensures Left1((a << 15) ^ (a >> 17)) == (a << 16) ^ (a >> 16)
    ensures Left1((a << 16) ^ (a >> 16)) == (a << 17) ^ (a >> 15)
    ensures Left1((a << 17) ^ (a >> 15)) == (a << 18) ^ (a >> 14)
    ensures Left1((a << 18) ^ (a >> 14)) == (a << 19) ^ (a >> 13)
    ensures Left1((a << 19) ^ (a >> 13)) == (a << 20) ^ (a >> 12)
    ensures Left1((a << 20) ^ (a >> 12)) == (a << 21) ^ (a >> 11)
    ensures Left1((a << 21) ^ (a >> 11)) == (a << 22) ^ (a >> 10)
    ensures Left1((a << 22) ^ (a >> 10)) == (a << 23) ^ (a >> 9)
  {
  }

  lemma Rotations(a: bv32)
    ensures Rotate(a, 4) == Rotl(a, 4) && Rotate(a, 5) == Rotl(a, 5)
    ensures Rotate(a, 6) == Rotl(a, 6) && Rotate(a, 7) == Rotl(a, 7)
    ensures Rotate(a, 9) == Rotl(a, 9) && Rotate(a, 10) == Rotl(a, 10)
    ensures Rotate(a, 11) == Rotl(a, 11) && Rotate(a, 12) == Rotl(a, 12)
    ensures Rotate(a, 14) == Rotl(a, 14) && Rotate(a, 15) == Rotl(a, 15)
    ensures Rotate(a, 16) == Rotl(a, 16) && Rotate(a, 17) == Rotl(a, 17)
    ensures Rotate(a, 20) == Rotl(a, 20) && Rotate(a, 21) == Rotl(a, 21)
    ensures Rotate(a, 22) == Rotl(a, 22) && Rotate(a, 23) == Rotl(a, 23)
  {
    hide Left1;
    OneMore(a);
    assert Rotl(a, 1) == (a << 1) ^ (a >> 31);
    assert Rotl(a, 2) == (a << 2) ^ (a >> 30);
    assert Rotl(a, 3) == (a << 3) ^ (a >> 29);
    assert Rotl(a, 4) == (a << 4) ^ (a >> 28);
    assert Rotl(a, 5) == (a << 5) ^ (a >> 27);
    assert Rotl(a, 6) == (a << 6) ^ (a >> 26);
    assert Rotl(a, 7) == (a << 7) ^ (a >> 25);
    assert Rotl(a, 8) == (a << 8) ^ (a >> 24);
    assert Rotl(a, 9) == (a << 9) ^ (a >> 23);
    assert Rotl(a, 10) == (a << 10) ^ (a >> 22);
    assert Rotl(a, 11) == (a << 11) ^ (a >> 21);
    assert Rotl(a, 12) == (a << 12) ^ (a >> 20);
    assert Rotl(a, 13) == (a << 13) ^ (a >> 19);
    assert Rotl(a, 14) == (a << 14) ^ (a >> 18);
    assert Rotl(a, 15) == (a << 15) ^ (a >> 17);
    assert Rotl(a, 16) == (a << 16) ^ (a >> 16);
    assert Rotl(a, 17) == (a << 17) ^ (a >> 15);
    assert Rotl(a, 18) == (a << 18) ^ (a >> 14);
    assert Rotl(a, 19) == (a << 19) ^ (a >> 13);
    assert Rotl(a, 20) == (a << 20) ^ (a >> 12);
    assert Rotl(a, 21) == (a << 21) ^ (a >> 11);
    assert Rotl(a, 22) == (a << 22) ^ (a >> 10);
    assert Rotl(a, 23) == (a << 23) ^ (a >> 9);
  }

  lemma RotateIsRotl(a: bv32, n: nat)
    requires IsAmount(n)
    ensures Rotate(a, n) == Rotl(a, n)
  {
    hide Rotate, Rotl;
    Rotations(a);
  }

  // ---- The steps are a bijection for each block ----

  function StepBack(x: Block, i: nat, s: Regs): Regs {
    Regs(Minus(Rotr(Minus(s.b, s.c), Amount(i)), Addend(x, i, s.c, s.d, s.a)), s.c, s.d, s.a)
  }

  function StepsBack(x: Block, n: nat, s: Regs): Regs {
    if n == 0 then s else StepsBack(x, n - 1, StepBack(x, n - 1, s))
  }

  lemma PlusNot(x: bv32, y: bv32)
    ensures Plus(Not(Plus(x, y)), y) == Not(x)
  {
  }

  lemma NotNot(x: bv32)
    ensures Not(Not(x)) == x
  {
  }

  lemma PlusMinus(x: bv32, y: bv32)
    ensures Minus(Plus(x, y), y) == x && Plus(Minus(x, y), y) == x
  {
    hide Plus, Not;
    PlusNot(x, y);
    PlusNot(Not(x), y);
    NotNot(x);
  }

  lemma PlusCommutes(x: bv32, y: bv32)
    ensures Plus(x, y) == Plus(y, x)
  {
  }

  lemma AmountIs(i: nat)
    ensures IsAmount(Amount(i))
  {
  }

  lemma OneBack(a: bv32)
    ensures Right1(Left1(a)) == a && Left1(Right1(a)) == a
  {
  }

  lemma {:induction false} RotateBack(a: bv32, n: nat)
    ensures Rotr(Rotl(a, n), n) == a && Rotl(Rotr(a, n), n) == a
    decreases n
  {
    hide Left1, Right1;
    if n > 0 {
      OneBack(Rotl(a, n - 1));
      RotateBack(a, n - 1);
      RotateBack(Right1(a), n - 1);
      OneBack(a);
    }
  }

  lemma StepAndBack(x: Block, i: nat, s: Regs)
    ensures StepBack(x, i, NextStep(x, i, s)) == s
    ensures NextStep(x, i, StepBack(x, i, s)) == s
  {
    hide Plus, Minus, Rotl, Rotr, Addend, Amount;
    var n := Amount(i);
    var u := Addend(x, i, s.b, s.c, s.d);
    PlusCommutes(s.b, Rotl(Plus(s.a, u), n));
    PlusMinus(Rotl(Plus(s.a, u), n), s.b);
    RotateBack(Plus(s.a, u), n);
    PlusMinus(s.a, u);
    var v := Addend(x, i, s.c, s.d, s.a);
    var w := Minus(s.b, s.c);
    PlusMinus(Rotr(w, n), v);
    RotateBack(w, n);
    PlusMinus(s.b, s.c);
    PlusCommutes(s.c, w);
  }

  /** The first n steps lose nothing: from their result and the block the registers come back, and every result is
      reached. */
  lemma {:induction false} StepsBijective(x: Block, n: nat, s: Regs)
    ensures StepsBack(x, n, Steps(x, n, s)) == s
    ensures Steps(x, n, StepsBack(x, n, s)) == s
  {
    hide NextStep, StepBack;
    if n > 0 {
      StepAndBack(x, n - 1, Steps(x, n - 1, s));
      StepsBijective(x, n - 1, s);
      StepsBijective(x, n - 1, StepBack(x, n - 1, s));
      StepAndBack(x, n - 1, s);
    }
  }

  // ---- The code's macros ----

  /** `F1` */
  function F1(b: bv32, c: bv32, d: bv32): bv32 { ((c ^ d) & b) ^ d }

  /** `F2` */
  function F2(b: bv32, c: bv32, d: bv32): bv32 { ((b ^ c) & d) ^ c }

  /** `F3` */
  function F3(b: bv32, c: bv32, d: bv32): bv32 { b ^ c ^ d }

  /** `F4` */
  function F4(b: bv32, c: bv32, d: bv32): bv32 { (!d | b) ^ c }

  /** `STEP1` to `STEP4`, given the value of F1 to F4: the new value of the first register. */
  function Step(f: bv32, a: bv32, b: bv32, k: bv32, w: bv32, r: nat): bv32 {
    Plus(Rotate(Plus(a, Plus3(w, k, f)), r), b)
  }

  /** F1 to F4 by round. */
  function CodeMix(i: nat, b: bv32, c: bv32, d: bv32): bv32 {
    if i < 16 then F1(b, c, d) else if i < 32 then F2(b, c, d) else if i < 48 then F3(b, c, d) else F4(b, c, d)
  }

  lemma SameMix(i: nat, b: bv32, c: bv32, d: bv32)
    ensures CodeMix(i, b, c, d) == Mix(i, b, c, d)
  {
    Choose(b, c, d);
  }

  lemma Choose(b: bv32, c: bv32, d: bv32)
    ensures F1(b, c, d) == (b & c) | (!b & d)
    ensures F2(b, c, d) == (b & d) | (c & !d)
    ensures F4(b, c, d) == c ^ (b | !d)
  {
  }

  lemma SumOrder(f: bv32, w: bv32, k: bv32, a: bv32, b: bv32)
    ensures Plus3(w, k, f) == Plus3(f, w, k) && Plus(a, b) == Plus(b, a)
  {
  }

  /** The register that a line of the code computes, for step i. */
  function Line(x: Block, i: nat, a: bv32, b: bv32, c: bv32, d: bv32): bv32 {
    Step(CodeMix(i, b, c, d), a, b, T(i), x[Index(i)], Amount(i))
  }

  lemma LineIsStep(x: Block, i: nat, a: bv32, b: bv32, c: bv32, d: bv32)
    ensures NextStep(x, i, Regs(a, b, c, d)) == Regs(d, Line(x, i, a, b, c, d), b, c)
  {
    hide Plus, Plus3, Rotate, Rotl, CodeMix, Mix, T, Index, Amount;
    var f := Mix(i, b, c, d);
    SameMix(i, b, c, d);
    var u := Plus(a, Addend(x, i, b, c, d));
    SumOrder(f, x[Index(i)], T(i), Rotl(u, Amount(i)), b);
    AmountIs(i);
    RotateIsRotl(u, Amount(i));
  }

  /** Four lines, after which every register has changed once and is back in its place. */
  lemma FourLines(x: Block, n: nat, s: Regs, a: bv32, b: bv32, c: bv32, d: bv32)
    requires Steps(x, n, s) == Regs(a, b, c, d)
    ensures var a' := Line(x, n, a, b, c, d);
            var d' := Line(x, n + 1, d, a', b, c);
            var c' := Line(x, n + 2, c, d', a', b);
            var b' := Line(x, n + 3, b, c', d', a');
            Steps(x, n + 4, s) == Regs(a', b', c', d')
  {
    hide NextStep, Line;
    var a' := Line(x, n, a, b, c, d);
    var d' := Line(x, n + 1, d, a', b, c);
    var c' := Line(x, n + 2, c, d', a', b);
    LineIsStep(x, n, a, b, c, d);
    LineIsStep(x, n + 1, d, a', b, c);
    LineIsStep(x, n + 2, c, d', a', b);
    LineIsStep(x, n + 3, b, c', d', a');
    assert Steps(x, n + 1, s) == Regs(d, a', b, c);
    assert Steps(x, n + 2, s) == Regs(c, d', a', b);
    assert Steps(x, n + 3, s) == Regs(b, c', d', a');
  }

  lemma FourLines1(x: Block, n: nat, s: Regs, a: bv32, b: bv32, c: bv32, d: bv32)
    requires 0 <= n < 16 && n % 4 == 0 && Steps(x, n, s) == Regs(a, b, c, d)
    ensures var a' := Step(F1(b, c, d), a, b, T(n), x[Index(n)], 7);
            var d' := Step(F1(a', b, c), d, a', T(n + 1), x[Index(n + 1)], 12);
            var c' := Step(F1(d', a', b), c, d', T(n + 2), x[Index(n + 2)], 17);
            var b' := Step(F1(c', d', a'), b, c', T(n + 3), x[Index(n + 3)], 22);
            Steps(x, n + 4, s) == Regs(a', b', c', d')
  {
    hide Step, F1, F2, F3, F4, T, Index, Steps;
    FourLines(x, n, s, a, b, c, d);
  }

  lemma FourLines2(x: Block, n: nat, s: Regs, a: bv32, b: bv32, c: bv32, d: bv32)
    requires 16 <= n < 32 && n % 4 == 0 && Steps(x, n, s) == Regs(a, b, c, d)
    ensures var a' := Step(F2(b, c, d), a, b, T(n), x[Index(n)], 5);
            var d' := Step(F2(a', b, c), d, a', T(n + 1), x[Index(n + 1)], 9);
            var c' := Step(F2(d', a', b), c, d', T(n + 2), x[Index(n + 2)], 14);
            var b' := Step(F2(c', d', a'), b, c', T(n + 3), x[Index(n + 3)], 20);
            Steps(x, n + 4, s) == Regs(a', b', c', d')
  {
    hide Step, F1, F2, F3, F4, T, Index, Steps;
    FourLines(x, n, s, a, b, c, d);
  }

  lemma FourLines3(x: Block, n: nat, s: Regs, a: bv32, b: bv32, c: bv32, d: bv32)
    requires 32 <= n < 48 && n % 4 == 0 && Steps(x, n, s) == Regs(a, b, c, d)
    ensures var a' := Step(F3(b, c, d), a, b, T(n), x[Index(n)], 4);
            var d' := Step(F3(a', b, c), d, a', T(n + 1), x[Index(n + 1)], 11);
            var c' := Step(F3(d', a', b), c, d', T(n + 2), x[Index(n + 2)], 16);
            var b' := Step(F3(c', d', a'), b, c', T(n + 3), x[Index(n + 3)], 23);
            Steps(x, n + 4, s) == Regs(a', b', c', d')
  {
    hide Step, F1, F2, F3, F4, T, Index, Steps;
    FourLines(x, n, s, a, b, c, d);
  }

  lemma FourLines4(x: Block, n: nat, s: Regs, a: bv32, b: bv32, c: bv32, d: bv32)
    requires 48 <= n < 64 && n % 4 == 0 && Steps(x, n, s) == Regs(a, b, c, d)
    ensures var a' := Step(F4(b, c, d), a, b, T(n), x[Index(n)], 6);
            var d' := Step(F4(a', b, c), d, a', T(n + 1), x[Index(n + 1)], 10);
            var c' := Step(F4(d', a', b), c, d', T(n + 2), x[Index(n + 2)], 15);
            var b' := Step(F4(c', d', a'), b, c', T(n + 3), x[Index(n + 3)], 21);
            Steps(x, n + 4, s) == Regs(a', b', c', d')
  {
    hide Step, F1, F2, F3, F4, T, Index, Steps;
    FourLines(x, n, s, a, b, c, d);
  }

  // ---- The block ----

  lemma Constants1()
    ensures T(0) == 0xd76aa478 && T(1) == 0xe8c7b756 && T(2) == 0x242070db && T(3) == 0xc1bdceee
    ensures T(4) == 0xf57c0faf && T(5) == 0x4787c62a && T(6) == 0xa8304613 && T(7) == 0xfd469501
    ensures T(8) == 0x698098d8 && T(9) == 0x8b44f7af && T(10) == 0xffff5bb1 && T(11) == 0x895cd7be
    ensures T(12) == 0x6b901122 && T(13) == 0xfd987193 && T(14) == 0xa679438e && T(15) == 0x49b40821
  {
  }

  lemma Indices1()
    ensures Index(0) == 0 && Index(1) == 1 && Index(2) == 2 && Index(3) == 3
    ensures Index(4) == 4 && Index(5) == 5 && Index(6) == 6 && Index(7) == 7
    ensures Index(8) == 8 && Index(9) == 9 && Index(10) == 10 && Index(11) == 11
    ensures Index(12) == 12 && Index(13) == 13 && Index(14) == 14 && Index(15) == 15
  {
  }

  lemma Constants2()
    ensures T(16) == 0xf61e2562 && T(17) == 0xc040b340 && T(18) == 0x265e5a51 && T(19) == 0xe9b6c7aa
    ensures T(20) == 0xd62f105d && T(21) == 0x02441453 && T(22) == 0xd8a1e681 && T(23) == 0xe7d3fbc8
    ensures T(24) == 0x21e1cde6 && T(25) == 0xc33707d6 && T(26) == 0xf4d50d87 && T(27) == 0x455a14ed
    ensures T(28) == 0xa9e3e905 && T(29) == 0xfcefa3f8 && T(30) == 0x676f02d9 && T(31) == 0x8d2a4c8a
  {
  }

  lemma Indices2()
    ensures Index(16) == 1 && Index(17) == 6 && Index(18) == 11 && Index(19) == 0
    ensures Index(20) == 5 && Index(21) == 10 && Index(22) == 15 && Index(23) == 4
    ensures Index(24) == 9 && Index(25) == 14 && Index(26) == 3 && Index(27) == 8
    ensures Index(28) == 13 && Index(29) == 2 && Index(30) == 7 && Index(31) == 12
  {
  }

  lemma Constants3()
    ensures T(32) == 0xfffa3942 && T(33) == 0x8771f681 && T(34) == 0x6d9d6122 && T(35) == 0xfde5380c
    ensures T(36) == 0xa4beea44 && T(37) == 0x4bdecfa9 && T(38) == 0xf6bb4b60 && T(39) == 0xbebfbc70
    ensures T(40) == 0x289b7ec6 && T(41) == 0xeaa127fa && T(42) == 0xd4ef3085 && T(43) == 0x04881d05
    ensures T(44) == 0xd9d4d039 && T(45) == 0xe6db99e5 && T(46) == 0x1fa27cf8 && T(47) == 0xc4ac5665
  {
  }

  lemma Indices3()
    ensures Index(32) == 5 && Index(33) == 8 && Index(34) == 11 && Index(35) == 14
    ensures Index(36) == 1 && Index(37) == 4 && Index(38) == 7 && Index(39) == 10
    ensures Index(40) == 13 && Index(41) == 0 && Index(42) == 3 && Index(43) == 6
    ensures Index(44) == 9 && Index(45) == 12 && Index(46) == 15 && Index(47) == 2
  {
  }

  lemma Constants4()
    ensures T(48) == 0xf4292244 && T(49) == 0x432aff97 && T(50) == 0xab9423a7 && T(51) == 0xfc93a039
    ensures T(52) == 0x655b59c3 && T(53) == 0x8f0ccc92 && T(54) == 0xffeff47d && T(55) == 0x85845dd1
    ensures T(56) == 0x6fa87e4f && T(57) == 0xfe2ce6e0 && T(58) == 0xa3014314 && T(59) == 0x4e0811a1
    ensures T(60) == 0xf7537e82 && T(61) == 0xbd3af235 && T(62) == 0x2ad7d2bb && T(63) == 0xeb86d391
  {
  }

  lemma Indices4()
    ensures Index(48) == 0 && Index(49) == 7 && Index(50) == 14 && Index(51) == 5
    ensures Index(52) == 12 && Index(53) == 3 && Index(54) == 10 && Index(55) == 1
    ensures Index(56) == 8 && Index(57) == 15 && Index(58) == 6 && Index(59) == 13
    ensures Index(60) == 4 && Index(61) == 11 && Index(62) == 2 && Index(63) == 9
  {
  }

  const H0: bv32 := 0x67452301
  const H1: bv32 := 0xefcdab89
  const H2: bv32 := 0x98badcfe
  const H3: bv32 := 0x10325476

  const H := Regs(H0, H1, H2, H3)

  /** The registers begin with the bytes of section 3.3 of RFC 1321, the least significant byte first. */
  lemma FirstRegisters()
    ensures WordByte(H0, 3) == 0x01 && WordByte(H0, 2) == 0x23 && WordByte(H0, 1) == 0x45 && WordByte(H0, 0) == 0x67
    ensures WordByte(H1, 3) == 0x89 && WordByte(H1, 2) == 0xab && WordByte(H1, 1) == 0xcd && WordByte(H1, 0) == 0xef
    ensures WordByte(H2, 3) == 0xfe && WordByte(H2, 2) == 0xdc && WordByte(H2, 1) == 0xba && WordByte(H2, 0) == 0x98
    ensures WordByte(H3, 3) == 0x76 && WordByte(H3, 2) == 0x54 && WordByte(H3, 1) == 0x32 && WordByte(H3, 0) == 0x10
    ensures H == Regs(H0, H1, H2, H3)
  {
  }

  /** Lines 1 to 4 of round 1, which load words of the block two lines before their use. */
  method Round1From0(data: Block, w: array<bv32>, a0: bv32, b0: bv32, c0: bv32, d0: bv32)
    returns (a: bv32, b: bv32, c: bv32, d: bv32)
    requires w.Length == 16 && Steps(data, 0, H) == Regs(a0, b0, c0, d0)
    modifies w
    ensures w[..6] == data[..6] && Steps(data, 4, H) == Regs(a, b, c, d)
  {
    hide Step, F1, F2, F3, F4, Steps, T, Index, H;
    a, b, c, d := a0, b0, c0, d0;
    Constants1();
    Indices1();
    w[0] := data[0];
    w[1] := data[1];
    FourLines1(data, 0, H, a, b, c, d);
    a := Step(F1(b, c, d), a, b, 0xd76aa478, w[0], 7);
    w[2] := data[2];
    d := Step(F1(a, b, c), d, a, 0xe8c7b756, w[1], 12);
    w[3] := data[3];
    c := Step(F1(d, a, b), c, d, 0x242070db, w[2], 17);
    w[4] := data[4];
    b := Step(F1(c, d, a), b, c, 0xc1bdceee, w[3], 22);
    w[5] := data[5];
  }

  /** Lines 5 to 8 of round 1, which load words of the block two lines before their use. */
  method Round1From4(data: Block, w: array<bv32>, a0: bv32, b0: bv32, c0: bv32, d0: bv32)
    returns (a: bv32, b: bv32, c: bv32, d: bv32)
    requires w.Length == 16 && Steps(data, 4, H) == Regs(a0, b0, c0, d0) && w[..6] == data[..6]
    modifies w
    ensures w[..10] == data[..10] && Steps(data, 8, H) == Regs(a, b, c, d)
  {
    hide Step, F1, F2, F3, F4, Steps, T, Index, H;
    a, b, c, d := a0, b0, c0, d0;
    Constants1();
    Indices1();
    assert w[4] == w[..6][4] && w[5] == w[..6][5];
    FourLines1(data, 4, H, a, b, c, d);
    a := Step(F1(b, c, d), a, b, 0xf57c0faf, w[4], 7);
    w[6] := data[6];
    d := Step(F1(a, b, c), d, a, 0x4787c62a, w[5], 12);
    w[7] := data[7];
    c := Step(F1(d, a, b), c, d, 0xa8304613, w[6], 17);
    w[8] := data[8];
    b := Step(F1(c, d, a), b, c, 0xfd469501, w[7], 22);
    w[9] := data[9];
  }

  /** Lines 9 to 12 of round 1, which load words of the block two lines before their use. */
  method Round1From8(data: Block, w: array<bv32>, a0: bv32, b0: bv32, c0: bv32, d0: bv32)
    returns (a: bv32, b: bv32, c: bv32, d: bv32)
    requires w.Length == 16 && Steps(data, 8, H) == Regs(a0, b0, c0, d0) && w[..10] == data[..10]
    modifies w
    ensures w[..14] == data[..14] && Steps(data, 12, H) == Regs(a, b, c, d)
  {
    hide Step, F1, F2, F3, F4, Steps, T, Index, H;
    a, b, c, d := a0, b0, c0, d0;
    Constants1();
    Indices1();
    assert w[8] == w[..10][8] && w[9] == w[..10][9];
    FourLines1(data, 8, H, a, b, c, d);
    a := Step(F1(b, c, d), a, b, 0x698098d8, w[8], 7);
    w[10] := data[10];
    d := Step(F1(a, b, c), d, a, 0x8b44f7af, w[9], 12);
    w[11] := data[11];
    c := Step(F1(d, a, b), c, d, 0xffff5bb1, w[10], 17);
    w[12] := data[12];
    b := Step(F1(c, d, a), b, c, 0x895cd7be, w[11], 22);
    w[13] := data[13];
  }

  /** Lines 13 to 16 of round 1, which load words of the block two lines before their use. */
  method Round1From12(data: Block, w: array<bv32>, a0: bv32, b0: bv32, c0: bv32, d0: bv32)
    returns (a: bv32, b: bv32, c: bv32, d: bv32)
    requires w.Length == 16 && Steps(data, 12, H) == Regs(a0, b0, c0, d0) && w[..14] == data[..14]
    modifies w
    ensures w[..16] == data[..16] && Steps(data, 16, H) == Regs(a, b, c, d)
  {
    hide Step, F1, F2, F3, F4, Steps, T, Index, H;
    a, b, c, d := a0, b0, c0, d0;
    Constants1();
    Indices1();
    assert w[12] == w[..14][12] && w[13] == w[..14][13];
    FourLines1(data, 12, H, a, b, c, d);
    a := Step(F1(b, c, d), a, b, 0x6b901122, w[12], 7);
    w[14] := data[14];
    d := Step(F1(a, b, c), d, a, 0xfd987193, w[13], 12);
    w[15] := data[15];
    c := Step(F1(d, a, b), c, d, 0xa679438e, w[14], 17);
    b := Step(F1(c, d, a), b, c, 0x49b40821, w[15], 22);
  }

  /** The lines of round 2. */
  method Round2(w: array<bv32>, a0: bv32, b0: bv32, c0: bv32, d0: bv32) returns (a: bv32, b: bv32, c: bv32, d: bv32)
    requires w.Length == 16 && Steps(w[..], 16, H) == Regs(a0, b0, c0, d0)
    ensures Steps(w[..], 32, H) == Regs(a, b, c, d)
  {
    hide Step, F1, F2, F3, F4, Steps, H, T, Index;
    ghost var x: Block := w[..];
    a, b, c, d := a0, b0, c0, d0;
    Constants2();
    Indices2();
    FourLines2(x, 16, H, a, b, c, d);
    a := Step(F2(b, c, d), a, b, 0xf61e2562, w[1], 5);
    d := Step(F2(a, b, c), d, a, 0xc040b340, w[6], 9);
    c := Step(F2(d, a, b), c, d, 0x265e5a51, w[11], 14);
    b := Step(F2(c, d, a), b, c, 0xe9b6c7aa, w[0], 20);
    FourLines2(x, 20, H, a, b, c, d);
    a := Step(F2(b, c, d), a, b, 0xd62f105d, w[5], 5);
    d := Step(F2(a, b, c), d, a, 0x02441453, w[10], 9);
    c := Step(F2(d, a, b), c, d, 0xd8a1e681, w[15], 14);
    b := Step(F2(c, d, a), b, c, 0xe7d3fbc8, w[4], 20);
    FourLines2(x, 24, H, a, b, c, d);
    a := Step(F2(b, c, d), a, b, 0x21e1cde6, w[9], 5);
    d := Step(F2(a, b, c), d, a, 0xc33707d6, w[14], 9);
    c := Step(F2(d, a, b), c, d, 0xf4d50d87, w[3], 14);
    b := Step(F2(c, d, a), b, c, 0x455a14ed, w[8], 20);
    FourLines2(x, 28, H, a, b, c, d);
    a := Step(F2(b, c, d), a, b, 0xa9e3e905, w[13], 5);
    d := Step(F2(a, b, c), d, a, 0xfcefa3f8, w[2], 9);
    c := Step(F2(d, a, b), c, d, 0x676f02d9, w[7], 14);
    b := Step(F2(c, d, a), b, c, 0x8d2a4c8a, w[12], 20);
  }

  /** The lines of round 3. */
  method Round3(w: array<bv32>, a0: bv32, b0: bv32, c0: bv32, d0: bv32) returns (a: bv32, b: bv32, c: bv32, d: bv32)
    requires w.Length == 16 && Steps(w[..], 32, H) == Regs(a0, b0, c0, d0)
    ensures Steps(w[..], 48, H) == Regs(a, b, c, d)
  {
    hide Step, F1, F2, F3, F4, Steps, H, T, Index;
    ghost var x: Block := w[..];
    a, b, c, d := a0, b0, c0, d0;
    Constants3();
    Indices3();
    FourLines3(x, 32, H, a, b, c, d);
    a := Step(F3(b, c, d), a, b, 0xfffa3942, w[5], 4);
    d := Step(F3(a, b, c), d, a, 0x8771f681, w[8], 11);
    c := Step(F3(d, a, b), c, d, 0x6d9d6122, w[11], 16);
    b := Step(F3(c, d, a), b, c, 0xfde5380c, w[14], 23);
    FourLines3(x, 36, H, a, b, c, d);
    a := Step(F3(b, c, d), a, b, 0xa4beea44, w[1], 4);
    d := Step(F3(a, b, c), d, a, 0x4bdecfa9, w[4], 11);
    c := Step(F3(d, a, b), c, d, 0xf6bb4b60, w[7], 16);
    b := Step(F3(c, d, a), b, c, 0xbebfbc70, w[10], 23);
    FourLines3(x, 40, H, a, b, c, d);
    a := Step(F3(b, c, d), a, b, 0x289b7ec6, w[13], 4);
    d := Step(F3(a, b, c), d, a, 0xeaa127fa, w[0], 11);
    c := Step(F3(d, a, b), c, d, 0xd4ef3085, w[3], 16);
    b := Step(F3(c, d, a), b, c, 0x04881d05, w[6], 23);
    FourLines3(x, 44, H, a, b, c, d);
    a := Step(F3(b, c, d), a, b, 0xd9d4d039, w[9], 4);
    d := Step(F3(a, b, c), d, a, 0xe6db99e5, w[12], 11);
    c := Step(F3(d, a, b), c, d, 0x1fa27cf8, w[15], 16);
    b := Step(F3(c, d, a), b, c, 0xc4ac5665, w[2], 23);
  }

  /** The lines of round 4. */
  method Round4(w: array<bv32>, a0: bv32, b0: bv32, c0: bv32, d0: bv32) returns (a: bv32, b: bv32, c: bv32, d: bv32)
    requires w.Length == 16 && Steps(w[..], 48, H) == Regs(a0, b0, c0, d0)
    ensures Steps(w[..], 64, H) == Regs(a, b, c, d)
  {
    hide Step, F1, F2, F3, F4, Steps, H, T, Index;
    ghost var x: Block := w[..];
    a, b, c, d := a0, b0, c0, d0;
    Constants4();
    Indices4();
    FourLines4(x, 48, H, a, b, c, d);
    a := Step(F4(b, c, d), a, b, 0xf4292244, w[0], 6);
    d := Step(F4(a, b, c), d, a, 0x432aff97, w[7], 10);
    c := Step(F4(d, a, b), c, d, 0xab9423a7, w[14], 15);
    b := Step(F4(c, d, a), b, c, 0xfc93a039, w[5], 21);
    FourLines4(x, 52, H, a, b, c, d);
    a := Step(F4(b, c, d), a, b, 0x655b59c3, w[12], 6);
    d := Step(F4(a, b, c), d, a, 0x8f0ccc92, w[3], 10);
    c := Step(F4(d, a, b), c, d, 0xffeff47d, w[10], 15);
    b := Step(F4(c, d, a), b, c, 0x85845dd1, w[1], 21);
    FourLines4(x, 56, H, a, b, c, d);
    a := Step(F4(b, c, d), a, b, 0x6fa87e4f, w[8], 6);
    d := Step(F4(a, b, c), d, a, 0xfe2ce6e0, w[15], 10);
    c := Step(F4(d, a, b), c, d, 0xa3014314, w[6], 15);
    b := Step(F4(c, d, a), b, c, 0x4e0811a1, w[13], 21);
    FourLines4(x, 60, H, a, b, c, d);
    a := Step(F4(b, c, d), a, b, 0xf7537e82, w[4], 6);
    d := Step(F4(a, b, c), d, a, 0xbd3af235, w[11], 10);
    c := Step(F4(d, a, b), c, d, 0x2ad7d2bb, w[2], 15);
    b := Step(F4(c, d, a), b, c, 0xeb86d391, w[9], 21);
  }

  /** `md5_one_block_common` */
  method Md5OneBlock(data: Block, digest: array<bv32>)
    requires digest.Length == 4
    modifies digest
    ensures var s := Steps(data, 64, H);
            && digest[0] == Plus(s.a, H0) && digest[1] == Plus(s.b, H1)
            && digest[2] == Plus(s.c, H2) && digest[3] == Plus(s.d, H3)
  {
    hide Steps, Plus, H, H0, H1, H2, H3;
    var a, b, c, d := H0, H1, H2, H3;
    NoSteps(data);
    var w := new bv32[16];
    a, b, c, d := Round1From0(data, w, a, b, c, d);
    a, b, c, d := Round1From4(data, w, a, b, c, d);
    a, b, c, d := Round1From8(data, w, a, b, c, d);
    a, b, c, d := Round1From12(data, w, a, b, c, d);
    assert w[..] == w[..16] && data == data[..16];
    a, b, c, d := Round2(w, a, b, c, d);
    a, b, c, d := Round3(w, a, b, c, d);
    a, b, c, d := Round4(w, a, b, c, d);
    digest[0] := Plus(a, H0);
    digest[1] := Plus(b, H1);
    digest[2] := Plus(c, H2);
    digest[3] := Plus(d, H3);
  }

  lemma NoSteps(x: Block)
    ensures Steps(x, 0, H) == Regs(H0, H1, H2, H3)
  {
  }
}
