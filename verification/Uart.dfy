/** The debug console of src/devices/mmio.c, a 16550-like register bank, against the trace of accesses
    made to it. */
module Uart {
  import opened Words

  const LSR_IDLE := 0x60 // THRE and TEMT
  const IIR_NO_INT := 0x01

  /** struct mmio_console_state, and the bytes printed. */
  datatype Regs = Regs(rxBuf: U8, ier: U8, iir: U8, lcr: U8, mcr: U8, lsr: U8, msr: U8, scr: U8,
                       dll: U8, dlm: U8, dlab: bool, output: seq<U8>)

  const INITIAL := Regs(0, 0, IIR_NO_INT, 0, 0, LSR_IDLE, 0, 0, 0, 0, false, [])

  /** x with the low bit cleared, and x with the two idle bits set. */
  function ClearReady(x: U8): U8 { x - x % 2 }
  function SetIdle(x: U8): U8 { x + (if (x / 0x20) % 2 == 0 then 0x20 else 0) + (if (x / 0x40) % 2 == 0 then 0x40 else 0) }

  datatype Access = Read(offset: U64) | Write(offset: U64, val: U8)

  // -------------------------------------------------- what a trace determines

  /** The value of the last write to offset that was made while the divisor latch bit was as given, or
      the default. The latch bit is bit 7 of the last value written to the line control register. */
  function LastWritten(t: seq<Access>, offset: U64, latch: bool, default: U8): U8 {
    if t == [] then default
    else
      var a := t[|t| - 1];
      if a.Write? && a.offset == offset && LatchOf(t[..|t| - 1]) == latch then a.val
      else LastWritten(t[..|t| - 1], offset, latch, default)
  }

  /** The last value written to offset whatever the latch bit. */
  function LastWrittenAny(t: seq<Access>, offset: U64): U8 {
    if t == [] then 0
    else
      var a := t[|t| - 1];
      if a.Write? && a.offset == offset then a.val else LastWrittenAny(t[..|t| - 1], offset)
  }

  function LatchOf(t: seq<Access>): bool {
    LastWrittenAny(t, 3) >= 0x80
  }

  /** The bytes written to offset 0 while the latch bit was clear. */
  function Printed(t: seq<Access>): seq<U8> {
    if t == [] then []
    else
      var a := t[|t| - 1];
      Printed(t[..|t| - 1]) + if a.Write? && a.offset == 0 && !LatchOf(t[..|t| - 1]) then [a.val] else []
  }

  /** What a read of offset returns after the trace. */
  function ReadBack(t: seq<Access>, offset: U64): U8 {
    if offset == 0 then (if LatchOf(t) then LastWritten(t, 0, true, 0) else 0)
    else if offset == 1 then LastWritten(t, 1, LatchOf(t), 0)
    else if offset == 2 then IIR_NO_INT
    else if offset == 3 || offset == 4 || offset == 7 then LastWrittenAny(t, offset)
    else if offset == 5 then LSR_IDLE
    else 0
  }

  /** The registers that a trace leaves. */
  predicate Reflects(r: Regs, t: seq<Access>) {
    && r.lcr == LastWrittenAny(t, 3) && r.dlab == LatchOf(t)
    && r.dll == LastWritten(t, 0, true, 0)
    && r.dlm == LastWritten(t, 1, true, 0) && r.ier == LastWritten(t, 1, false, 0)
    && r.mcr == LastWrittenAny(t, 4) && r.scr == LastWrittenAny(t, 7)
    && r.rxBuf == 0 && r.msr == 0 && r.iir == IIR_NO_INT && r.lsr == LSR_IDLE
    && r.output == Printed(t)
  }

  /** The latch bit is bit 7 of the last write to offset 3; nothing else moves it, and it starts clear. */
  lemma LatchIsBit7(t: seq<Access>, a: Access)
    ensures !LatchOf([])
    ensures LatchOf(t + [a]) <==> if a.Write? && a.offset == 3 then (a.val / 0x80) % 2 == 1 else LatchOf(t)
  {
    Extend(t, a);
  }

  /** What the registers that nothing is kept in return: no received byte, no interrupt (1), an idle line
      (0x60), and 0 beyond. */
  lemma FixedRegisters(t: seq<Access>, offset: U64)
    ensures !LatchOf(t) ==> ReadBack(t, 0) == 0
    ensures ReadBack(t, 2) == 0x01 && ReadBack(t, 5) == 0x60
    ensures offset == 6 || offset > 7 ==> ReadBack(t, offset) == 0
  {
  }

  /** A byte is printed when it is written to offset 0 while the latch bit is clear, and then only. */
  lemma PrintedStep(t: seq<Access>, a: Access)
    ensures Printed([]) == []
    ensures Printed(t + [a]) == Printed(t) + if a.Write? && a.offset == 0 && !LatchOf(t) then [a.val] else []
  {
    Extend(t, a);
  }

  /** A write to a plain register is read back until the next write to it. */
  lemma {:induction false} WrittenIsReadBack(t: seq<Access>, i: nat, offset: U64, v: U8)
    requires i < |t| && t[i] == Write(offset, v) && offset in {3, 4, 7}
    requires forall k :: i < k < |t| ==> !(t[k].Write? && t[k].offset == offset)
    ensures ReadBack(t, offset) == v
  {
    if i < |t| - 1 {
      WrittenIsReadBack(t[..|t| - 1], i, offset, v);
    }
  }

  /** A write to one of the two banks at offsets 0 and 1 is read back whenever its bank is selected
      again, whatever was written to the other bank meanwhile. Offset 0 has one readable bank. */
  lemma BankedWriteIsReadBack(t: seq<Access>, i: nat, offset: U64, v: U8)
    requires i < |t| && t[i] == Write(offset, v) && offset in {0, 1}
    requires LatchOf(t) == LatchOf(t[..i]) && (offset == 0 ==> LatchOf(t))
    requires forall k :: i < k < |t| && t[k].Write? && t[k].offset == offset ==> LatchOf(t[..k]) != LatchOf(t)
    ensures ReadBack(t, offset) == v
  {
    BankedWriteStands(t, i, offset, v, LatchOf(t));
  }

  lemma {:induction false} BankedWriteStands(t: seq<Access>, i: nat, offset: U64, v: U8, latch: bool)
    requires i < |t| && t[i] == Write(offset, v) && LatchOf(t[..i]) == latch
    requires forall k :: i < k < |t| && t[k].Write? && t[k].offset == offset ==> LatchOf(t[..k]) != latch
    ensures LastWritten(t, offset, latch, 0) == v
  {
    var front := t[..|t| - 1];
    if i < |t| - 1 {
      assert front[..i] == t[..i];
      forall k | i < k < |front| && front[k].Write? && front[k].offset == offset ensures LatchOf(front[..k]) != latch {
        assert front[..k] == t[..k];
      }
      BankedWriteStands(front, i, offset, v, latch);
    } else {
      assert t[..i] == front;
    }
  }

  class MmioConsole {
    var r: Regs
    /** All accesses so far. */
    ghost var trace: seq<Access>

    ghost predicate Valid()
      reads this
    {
      Reflects(r, trace)
    }

    constructor ()
      ensures Valid() && trace == []
    {
      r := INITIAL;
      trace := [];
    }

    method ReadReg(offset: U64) returns (val: U8)
      requires Valid()
      modifies this
      ensures Valid() && trace == old(trace) + [Read(offset)]
      ensures val == ReadBack(old(trace), offset)
      ensures r.output == old(r.output)
    {
      val := 0;
      if offset == 0 {
        if r.dlab {
          val := r.dll;
        } else {
          val := r.rxBuf;
          r := r.(lsr := ClearReady(r.lsr));
        }
      } else if offset == 1 {
        val := if r.dlab then r.dlm else r.ier;
      } else if offset == 2 {
        val := r.iir;
      } else if offset == 3 {
        val := r.lcr;
      } else if offset == 4 {
        val := r.mcr;
      } else if offset == 5 {
        val := r.lsr;
      } else if offset == 6 {
        val := r.msr;
      } else if offset == 7 {
        val := r.scr;
      }
      Extend(trace, Read(offset));
      trace := trace + [Read(offset)];
    }

    method WriteReg(offset: U64, val: U8)
      requires Valid()
      modifies this
      ensures Valid() && trace == old(trace) + [Write(offset, val)]
      ensures r.dlab == if offset == 3 then (val / 0x80) % 2 == 1 else old(r.dlab)
      ensures r.output == old(r.output) + if offset == 0 && !LatchOf(old(trace)) then [val] else []
    {
      if offset == 0 {
        if r.dlab {
          r := r.(dll := val);
        } else {
          r := r.(output := r.output + [val]);
          r := r.(lsr := SetIdle(r.lsr));
        }
      } else if offset == 1 {
        if r.dlab {
          r := r.(dlm := val);
        } else {
          r := r.(ier := val);
        }
      } else if offset == 3 {
        r := r.(lcr := val);
        r := r.(dlab := (val / 0x80) % 2 == 1);
      } else if offset == 4 {
        r := r.(mcr := val);
      } else if offset == 7 {
        r := r.(scr := val);
      }
      Extend(trace, Write(offset, val));
      trace := trace + [Write(offset, val)];
    }
  }

  /** The trace functions look at the last access first. */
  lemma Extend(t: seq<Access>, a: Access)
    ensures (t + [a])[..|t|] == t && (t + [a])[|t|] == a
  {
  }
}
