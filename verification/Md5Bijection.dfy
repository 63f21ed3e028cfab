/** For a fixed block, the 64 steps before the final additions form a bijection on the registers. */
module Md5Bijection {
  import opened Bytes
  import opened Md5Rfc

  function Minus(x: bv32, y: bv32): bv32 { x - y }

  lemma PlusThenMinus(x: bv32, y: bv32)
    ensures Minus(Plus(x, y), y) == x
  {
    calc { Minus(Plus(x, y), y); Minus(x + y, y); (x + y) - y; x; }
  }

  lemma MinusThenPlus(x: bv32, y: bv32)
    ensures Plus(Minus(x, y), y) == x
  {
    calc { Plus(Minus(x, y), y); Plus(x - y, y); (x - y) + y; x; }
  }

  lemma RotateBackBelow8(x: bv32, s: bv5)
    requires s < 8
    ensures RotateLeft(RotateLeft(x, s), 0 - s) == x
  {
  }

  lemma RotateBackBelow16(x: bv32, s: bv5)
    requires 8 <= s < 16
    ensures RotateLeft(RotateLeft(x, s), 0 - s) == x
  {
  }

  lemma RotateBackBelow24(x: bv32, s: bv5)
    requires 16 <= s < 24
    ensures RotateLeft(RotateLeft(x, s), 0 - s) == x
  {
  }

  lemma RotateBackBelow32(x: bv32, s: bv5)
    requires 24 <= s
    ensures RotateLeft(RotateLeft(x, s), 0 - s) == x
  {
  }

  // 0 - s is 32 - s in five bits: rotating by it undoes rotating by s.
  lemma RotateBack(x: bv32, s: bv5)
    ensures RotateLeft(RotateLeft(x, s), 0 - s) == x
  {
    if s < 8 {
      RotateBackBelow8(x, s);
    } else if s < 16 {
      RotateBackBelow16(x, s);
    } else if s < 24 {
      RotateBackBelow24(x, s);
    } else {
      RotateBackBelow32(x, s);
    }
  }

  // Word operations whose addition and rotation can be taken back.
  datatype Inverses<!W> = Inverses(minus: (W, W) -> W, rotateBack: (W, bv5) -> W)

  ghost predicate Invertible<W(!new)>(m: WordOps<W>, v: Inverses<W>) {
    && (forall x, y :: v.minus(m.plus(x, y), y) == x)
    && (forall x, y :: m.plus(v.minus(x, y), y) == x)
    && (forall x, s :: v.rotateBack(m.rotateLeft(x, s), s) == x)
    && (forall x, s :: m.rotateLeft(v.rotateBack(x, s), s) == x)
  }

  // Takes back step i: the register that was replaced is recomputed from the other three.
  function UndoStep<W>(m: WordOps<W>, v: Inverses<W>, r: Regs<W>, x: seq<W>, i: nat): Regs<W>
    requires |x| == 16 && i < 64
  {
    var e := m.entry(i);
    var sum := m.plus(m.plus(Aux(m, i, r.c, r.d, r.a), x[e.word]), e.sine);
    Regs(v.minus(v.rotateBack(v.minus(r.b, r.c), e.shift), sum), r.c, r.d, r.a)
  }

  function UndoSteps<W>(m: WordOps<W>, v: Inverses<W>, r: Regs<W>, x: seq<W>, n: nat): Regs<W>
    requires |x| == 16 && n <= 64
    decreases n
  {
    if n == 0 then r else UndoSteps(m, v, UndoStep(m, v, r, x, n - 1), x, n - 1)
  }

  lemma StepUndone<W(!new)>(m: WordOps<W>, v: Inverses<W>, r: Regs<W>, x: seq<W>, i: nat)
    requires |x| == 16 && i < 64 && Invertible(m, v)
    ensures UndoStep(m, v, Step(m, r, x, i), x, i) == r
    ensures Step(m, UndoStep(m, v, r, x, i), x, i) == r
  {
  }

  lemma {:induction false} StepsUndone<W(!new)>(m: WordOps<W>, v: Inverses<W>, r: Regs<W>, x: seq<W>, n: nat)
    requires |x| == 16 && n <= 64 && Invertible(m, v)
    ensures UndoSteps(m, v, Steps(m, r, x, 0, n), x, n) == r
    ensures Steps(m, UndoSteps(m, v, r, x, n), x, 0, n) == r
    decreases n
  {
    if n > 0 {
      StepUndone(m, v, Steps(m, r, x, 0, n - 1), x, n - 1);
      StepsUndone(m, v, r, x, n - 1);
      StepsUndone(m, v, UndoStep(m, v, r, x, n - 1), x, n - 1);
      StepUndone(m, v, r, x, n - 1);
    }
  }

  const MACHINE_INVERSES: Inverses<bv32> := Inverses(Minus, (x: bv32, s: bv5) => RotateLeft(x, 0 - s))

  lemma MachineInvertible()
    ensures Invertible(MACHINE, MACHINE_INVERSES)
  {
    forall x: bv32, y: bv32
      ensures MACHINE_INVERSES.minus(MACHINE.plus(x, y), y) == x && MACHINE.plus(MACHINE_INVERSES.minus(x, y), y) == x
    {
      PlusThenMinus(x, y);
      MinusThenPlus(x, y);
    }
    forall x: bv32, s: bv5
      ensures MACHINE_INVERSES.rotateBack(MACHINE.rotateLeft(x, s), s) == x
      ensures MACHINE.rotateLeft(MACHINE_INVERSES.rotateBack(x, s), s) == x
    {
      RotateBack(x, s);
      RotateBack(x, 0 - s);
      assert 0 - (0 - s) == s;
    }
  }

  /** For every block, the 64 steps and their step-by-step inverse cancel in both orders. */
  lemma CompressionCoreBijective(r: Regs<bv32>, block: seq<byte>)
    requires |block| == 64
    ensures var x := UnpackWords(block); UndoSteps(MACHINE, MACHINE_INVERSES, Steps(MACHINE, r, x, 0, 64), x, 64) == r
    ensures var x := UnpackWords(block); Steps(MACHINE, UndoSteps(MACHINE, MACHINE_INVERSES, r, x, 64), x, 0, 64) == r
  {
    MachineInvertible();
    StepsUndone(MACHINE, MACHINE_INVERSES, r, UnpackWords(block), 64);
  }

  function LessRegs(s: Regs<bv32>, r: Regs<bv32>): Regs<bv32> {
    Regs(Minus(s.a, r.a), Minus(s.b, r.b), Minus(s.c, r.c), Minus(s.d, r.d))
  }

  lemma OnTop(x: bv32, y: bv32)
    ensures Minus(Plus(x, y), x) == y
  {
    calc { Minus(Plus(x, y), x); Minus(x + y, x); (x + y) - x; y; }
  }

  lemma StepsOnTop(r: Regs<bv32>, s: Regs<bv32>)
    ensures LessRegs(AddRegs(r, s), r) == s
  {
    hide Plus, Minus;
    OnTop(r.a, s.a);
    OnTop(r.b, s.b);
    OnTop(r.c, s.c);
    OnTop(r.d, s.d);
  }

  /** What a block adds to the registers leads back, step by step, to these very registers. */
  lemma BlockUndone(r: Regs<bv32>, block: Block)
    ensures UndoSteps(MACHINE, MACHINE_INVERSES, LessRegs(Compress(r, block), r), UnpackWords(block), 64) == r
  {
    hide LessRegs, AddRegs, UnpackWords, UndoSteps, Steps;
    StepsOnTop(r, Steps(MACHINE, r, UnpackWords(block), 0, 64));
    CompressionCoreBijective(r, block);
  }
}
