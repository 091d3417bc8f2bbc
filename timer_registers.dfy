/** The memory-mapped register block of one hardware timer channel
    (Timer_Reg): seven 32-bit registers at offsets 0x00 to 0x18.
    Every store the driver makes (writel) goes through Write, which also
    appends it to a ghost log, so that the order of the driver's stores
    can be stated. */
module TimerRegisters {

  /** The registers of the block, in address order. */
  datatype Reg = TCFG0 | TCFG1 | TCON | TCNTB | TCMPB | TCNTO | TINT_CSTAT

  /** One store to the block: which register, which word. */
  datatype RegWrite = RegWrite(reg: Reg, value: bv32)

  class TimerRegs {
    var TCFG0: bv32       // 0x00 prescaler
    var TCFG1: bv32       // 0x04 source mux
    var TCON: bv32        // 0x08 control
    var TCNTB: bv32       // 0x0C count buffer (reload value)
    var TCMPB: bv32       // 0x10 compare buffer
    var TCNTO: bv32       // 0x14 live count
    var TINT_CSTAT: bv32  // 0x18 interrupt control and status

    /** Every store made to the block so far, oldest first. */
    ghost var writes: seq<RegWrite>

    /** writel(v, &reg): register r now holds v, no other register
        changes, and the store is logged. */
    method Write(r: Reg, v: bv32)
      modifies this
      ensures TCFG0 == if r == Reg.TCFG0 then v else old(TCFG0)
      ensures TCFG1 == if r == Reg.TCFG1 then v else old(TCFG1)
      ensures TCON == if r == Reg.TCON then v else old(TCON)
      ensures TCNTB == if r == Reg.TCNTB then v else old(TCNTB)
      ensures TCMPB == if r == Reg.TCMPB then v else old(TCMPB)
      ensures TCNTO == if r == Reg.TCNTO then v else old(TCNTO)
      ensures TINT_CSTAT == if r == Reg.TINT_CSTAT then v else old(TINT_CSTAT)
      ensures writes == old(writes) + [RegWrite(r, v)]
    {
      match r {
        case TCFG0 => this.TCFG0 := v;
        case TCFG1 => this.TCFG1 := v;
        case TCON => this.TCON := v;
        case TCNTB => this.TCNTB := v;
        case TCMPB => this.TCMPB := v;
        case TCNTO => this.TCNTO := v;
        case TINT_CSTAT => this.TINT_CSTAT := v;
      }
      writes := writes + [RegWrite(r, v)];
    }
  }
}
