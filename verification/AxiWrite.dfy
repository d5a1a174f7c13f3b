/** The registers of the generator as the processor writes them
  (lib/hw/lsi/cores/traffic_generator_gmii/hdl/traffic_generator_gmii_cpu_regs.v). */
module AxiWrite {
  import opened Arithmetic
  import opened BramIo

  const CONTROL: nat := 0x10
  const INTERFRAME_GAP: nat := 0x14
  const INTERBURST_GAP: nat := 0x18
  const FRAMES_PER_BURST: nat := 0x1C
  const TOTAL_FRAMES: nat := 0x20
  const FRAME_SIZE: nat := 0x44
  const FRAME_BUF: nat := 0x50
  const FRAME_BUF_ADDRESS: nat := 0x54

  type Word32 = w: nat | w < W32

  function WordOf(v: Word32): Word {
    Word(v / 0x100_0000, v / 0x1_0000 % 256, v / 256 % 256, v % 256)
  }

  datatype Settings = Settings(
    control: Word32, interframeGap: Word32, interburstGap: Word32, framesPerBurst: Word32,
    totalFrames: nat, frameSize: Word32)

  // ---- what the processor sees: one write at a time ----

  /** The registers, the address of the next word, and the frame buffer. */
  datatype Registers = Registers(settings: Settings, next: Address, mem: Memory)

  function RegisterWrite(r: Registers, addr: nat, data: Word32): Registers {
    var s := r.settings;
    if addr == CONTROL then r.(settings := s.(control := data))
    else if addr == INTERFRAME_GAP then r.(settings := s.(interframeGap := data))
    else if addr == INTERBURST_GAP then r.(settings := s.(interburstGap := data))
    else if addr == FRAMES_PER_BURST then r.(settings := s.(framesPerBurst := data))
    else if addr == TOTAL_FRAMES then r.(settings := s.(totalFrames := data * W32 + s.totalFrames % W32))
    else if addr == TOTAL_FRAMES + 4 then r.(settings := s.(totalFrames := s.totalFrames / W32 % W32 * W32 + data))
    else if addr == FRAME_SIZE then r.(settings := s.(frameSize := data), next := 0)
    else if addr == FRAME_BUF then r.(mem := r.mem[r.next := WordOf(data)], next := (r.next + 1) % 512)
    else if addr == FRAME_BUF_ADDRESS then r.(next := data % 512)
    else r
  }

  /** Which register is written at which address; the frame buffer takes the highest octet of a
    word first. */
  lemma WriteAddresses(r: Registers, v: Word32)
    ensures var s := r.settings;
      && RegisterWrite(r, 0x10, v) == r.(settings := s.(control := v))
      && RegisterWrite(r, 0x14, v) == r.(settings := s.(interframeGap := v))
      && RegisterWrite(r, 0x18, v) == r.(settings := s.(interburstGap := v))
      && RegisterWrite(r, 0x1C, v) == r.(settings := s.(framesPerBurst := v))
      && RegisterWrite(r, 0x20, v)
           == r.(settings := s.(totalFrames := v * 0x1_0000_0000 + s.totalFrames % 0x1_0000_0000))
      && RegisterWrite(r, 0x24, v)
           == r.(settings := s.(totalFrames := s.totalFrames / 0x1_0000_0000 % 0x1_0000_0000 * 0x1_0000_0000 + v))
      && RegisterWrite(r, 0x44, v) == r.(settings := s.(frameSize := v), next := 0)
      && RegisterWrite(r, 0x54, v) == r.(next := v % 512)
    ensures var r' := RegisterWrite(r, 0x50, v);
      && r' == r.(mem := r'.mem, next := (r.next + 1) % 512) && r'.mem == r.mem[r.next := r'.mem[r.next]]
      && Lane(r'.mem[r.next], 0) == v / 0x100_0000 && Lane(r'.mem[r.next], 1) == v / 0x1_0000 % 0x100
      && Lane(r'.mem[r.next], 2) == v / 0x100 % 0x100 && Lane(r'.mem[r.next], 3) == v % 0x100
  {
  }

  // ---- what the hardware does: one clock edge at a time ----

  /** The bus in a cycle; addresses are those of the core. */
  datatype Bus = Bus(awvalid: bool, awaddr: nat, wvalid: bool, wdata: Word32, bready: bool)

  datatype FrontEnd = FrontEnd(
    awready: bool, wready: bool, awaddr: nat, bvalid: bool,
    settings: Settings, bufAddress: Address, bufAddressNext: Address, bufData: Word, bufWr: bool, bufOnce: bool,
    mem: Memory)

  /** The write to a register: `frame_buf_wr` stays set, so that the word is written again in
    every cycle until the address changes. */
  function WriteEvent(f: FrontEnd, data: Word32): FrontEnd {
    var s := RegisterWrite(Registers(f.settings, f.bufAddressNext, f.mem), f.awaddr, data).settings;
    if f.awaddr == FRAME_SIZE then
      f.(settings := s, bufAddress := 0, bufAddressNext := 0, bufWr := false)
    else if f.awaddr == FRAME_BUF then
      if f.bufOnce then f
      else f.(bufData := WordOf(data), bufAddress := f.bufAddressNext, bufAddressNext := (f.bufAddressNext + 1) % 512,
              bufWr := true, bufOnce := true)
    else if f.awaddr == FRAME_BUF_ADDRESS then
      f.(bufAddress := data % 512, bufAddressNext := data % 512, bufWr := false)
    else f.(settings := s)
  }

  predicate Accepts(f: FrontEnd, b: Bus) {
    f.wready && b.wvalid && f.awready && b.awvalid
  }

  function FrontEndStep(f: FrontEnd, b: Bus): FrontEnd {
    var both := b.awvalid && b.wvalid;
    var g := if Accepts(f, b) then WriteEvent(f, b.wdata) else f.(bufOnce := false);
    g.(awready := !f.awready && both, wready := !f.wready && both,
       awaddr := if !f.awready && both then b.awaddr else f.awaddr,
       bvalid := if Accepts(f, b) && !f.bvalid then true else f.bvalid && !b.bready,
       mem := Written(f.mem, f.bufWr, f.bufAddress, f.bufData))
  }

  class FrontEndDevice {
    var handshake: (bool, bool, nat, bool)
    var settings: Settings
    var bufAddress: Address
    var bufAddressNext: Address
    var bufData: Word
    var bufWr: bool
    var bufOnce: bool
    const bram: Bram

    constructor (bram: Bram, f: FrontEnd)
      requires bram.mem.Length == 512
      ensures this.bram == bram && Valid() && Regs() == f.(mem := bram.mem[..])
    {
      this.bram := bram;
      handshake := (f.awready, f.wready, f.awaddr, f.bvalid);
      settings, bufAddress, bufAddressNext := f.settings, f.bufAddress, f.bufAddressNext;
      bufData, bufWr, bufOnce := f.bufData, f.bufWr, f.bufOnce;
    }

    ghost predicate Valid() {
      bram.mem.Length == 512
    }

    function Regs(): FrontEnd
      requires Valid()
      reads this, bram.mem
    {
      FrontEnd(handshake.0, handshake.1, handshake.2, handshake.3, settings,
               bufAddress, bufAddressNext, bufData, bufWr, bufOnce, bram.mem[..])
    }

    method Write(data: Word32)
      requires Valid()
      modifies this
      ensures Regs() == WriteEvent(old(Regs()), data)
    {
      var addr := handshake.2;
      if addr == CONTROL {
        settings := settings.(control := data);
      } else if addr == INTERFRAME_GAP {
        settings := settings.(interframeGap := data);
      } else if addr == INTERBURST_GAP {
        settings := settings.(interburstGap := data);
      } else if addr == FRAMES_PER_BURST {
        settings := settings.(framesPerBurst := data);
      } else if addr == TOTAL_FRAMES {
        settings := settings.(totalFrames := data * W32 + settings.totalFrames % W32);
      } else if addr == TOTAL_FRAMES + 4 {
        settings := settings.(totalFrames := settings.totalFrames / W32 % W32 * W32 + data);
      } else if addr == FRAME_SIZE {
        settings := settings.(frameSize := data);
        bufAddress, bufAddressNext, bufWr := 0, 0, false;
      } else if addr == FRAME_BUF {
        if !bufOnce {
          bufData, bufAddress, bufWr, bufOnce := WordOf(data), bufAddressNext, true, true;
          bufAddressNext := (bufAddressNext + 1) % 512;
        }
      } else if addr == FRAME_BUF_ADDRESS {
        bufAddress, bufAddressNext, bufWr := data % 512, data % 512, false;
      }
    }

    method Step(b: Bus)
      requires Valid()
      modifies this, bram.mem
      ensures Regs() == FrontEndStep(old(Regs()), b)
    {
      hide WriteEvent;
      var f := handshake;
      var write, at, word := bufWr, bufAddress, bufData;
      var both := b.awvalid && b.wvalid;
      var accepts := f.1 && b.wvalid && f.0 && b.awvalid;
      if accepts {
        Write(b.wdata);
      } else {
        bufOnce := false;
      }
      handshake := (!f.0 && both, !f.1 && both, if !f.0 && both then b.awaddr else f.2,
                    if accepts && !f.3 then true else f.3 && !b.bready);
      bram.WritePort(write, at, word);
    }
  }

  // ---- a processor with one write at a time ----

  /** Between transactions, while address or data or both are on offer, and while the
    response is awaited (sections A3.2.1 and A3.3.1 of ARM IHI 0022). */
  datatype Phase = Idle | Offered(addr: nat, data: Word32, aw: bool, w: bool) | Waiting

  datatype WriteOp = WriteOp(addr: nat, data: Word32)

  /** A cycle of the bus, with the write that the processor begins if it begins one. */
  datatype Beat = Beat(bus: Bus, intent: WriteOp)

  /** What is on offer is the intended write, and stays on offer until it is taken. */
  predicate Legal(p: Phase, t: Beat) {
    var b := t.bus;
    match p
    case Idle => (b.awvalid ==> b.awaddr == t.intent.addr) && (b.wvalid ==> b.wdata == t.intent.data)
    case Offered(addr, data, aw, w) =>
      (aw ==> b.awvalid) && (w ==> b.wvalid) && (b.awvalid ==> b.awaddr == addr) && (b.wvalid ==> b.wdata == data)
    case Waiting => !b.awvalid && !b.wvalid
  }

  function NextPhase(p: Phase, f: FrontEnd, t: Beat): Phase {
    var b := t.bus;
    match p
    case Idle => if b.awvalid || b.wvalid then Offered(t.intent.addr, t.intent.data, b.awvalid, b.wvalid) else Idle
    case Offered(addr, data, aw, w) => if Accepts(f, b) then Waiting else Offered(addr, data, b.awvalid, b.wvalid)
    case Waiting => if f.bvalid && b.bready then Idle else Waiting
  }

  /** The writes the processor has had accepted, and the responses it has got. */
  datatype Session = Session(phase: Phase, writes: seq<WriteOp>, responses: nat)

  function SessionStep(s: Session, f: FrontEnd, t: Beat): Session {
    Session(NextPhase(s.phase, f, t),
            if s.phase.Offered? && Accepts(f, t.bus) then s.writes + [WriteOp(s.phase.addr, s.phase.data)]
            else s.writes,
            if f.bvalid && t.bus.bready then s.responses + 1 else s.responses)
  }

  function AllWrites(r: Registers, ops: seq<WriteOp>): Registers {
    if ops == [] then r
    else RegisterWrite(AllWrites(r, ops[..|ops| - 1]), ops[|ops| - 1].addr, ops[|ops| - 1].data)
  }

  /** The registers as the processor will find them: the word on its way to memory counts. */
  function Seen(f: FrontEnd): Registers {
    Registers(f.settings, f.bufAddressNext, Written(f.mem, f.bufWr, f.bufAddress, f.bufData))
  }

  ghost predicate SessionInv(f: FrontEnd, s: Session, r: Registers) {
    && f.awready == f.wready
    && (f.awready ==> s.phase.Offered? && s.phase.aw && s.phase.w && f.awaddr == s.phase.addr && !f.bufOnce)
    && f.bvalid == s.phase.Waiting?
    && |s.writes| == s.responses + (if s.phase.Waiting? then 1 else 0)
    && Seen(f) == AllWrites(r, s.writes)
  }

  lemma WriteEventIsRegisterWrite(f: FrontEnd, data: Word32)
    requires !f.bufOnce
    ensures Seen(WriteEvent(f, data).(mem := Written(f.mem, f.bufWr, f.bufAddress, f.bufData)))
         == RegisterWrite(Seen(f), f.awaddr, data)
  {
    hide WordOf;
  }

  lemma SessionStepInv(f: FrontEnd, s: Session, r: Registers, t: Beat)
    requires SessionInv(f, s, r) && Legal(s.phase, t)
    ensures SessionInv(FrontEndStep(f, t.bus), SessionStep(s, f, t), r)
  {
    hide WriteEvent;
    hide RegisterWrite;
    if Accepts(f, t.bus) {
      WriteEventIsRegisterWrite(f, t.bus.wdata);
    }
  }

  function FrontEndRun(f: FrontEnd, ts: seq<Beat>): FrontEnd {
    if ts == [] then f else FrontEndStep(FrontEndRun(f, ts[..|ts| - 1]), ts[|ts| - 1].bus)
  }

  function SessionRun(s: Session, f: FrontEnd, ts: seq<Beat>): Session {
    if ts == [] then s
    else
      var n := |ts| - 1;
      SessionStep(SessionRun(s, f, ts[..n]), FrontEndRun(f, ts[..n]), ts[n])
  }

  ghost predicate LegalRun(s: Session, f: FrontEnd, ts: seq<Beat>) {
    ts != [] ==>
      var n := |ts| - 1;
      LegalRun(s, f, ts[..n]) && Legal(SessionRun(s, f, ts[..n]).phase, ts[n])
  }

  const NO_WRITES: Session := Session(Idle, [], 0)

  /** Between transactions. */
  predicate Resting(f: FrontEnd) {
    !f.awready && !f.wready && !f.bvalid
  }

  /** However the processor times its offers and takes its responses: every accepted write
    gets exactly one response and takes effect exactly once, in order. */
  lemma {:induction false} WritesTakeEffectOnce(f: FrontEnd, ts: seq<Beat>)
    requires Resting(f) && LegalRun(NO_WRITES, f, ts)
    ensures SessionInv(FrontEndRun(f, ts), SessionRun(NO_WRITES, f, ts), Seen(f))
  {
    if ts != [] {
      hide FrontEndStep;
      hide SessionStep;
      hide SessionInv;
      var n := |ts| - 1;
      WritesTakeEffectOnce(f, ts[..n]);
      SessionStepInv(FrontEndRun(f, ts[..n]), SessionRun(NO_WRITES, f, ts[..n]), Seen(f), ts[n]);
    }
  }

  /** One cycle later the frame buffer itself holds what was written. */
  lemma {:induction false} BufferFollows(f: FrontEnd, s: Session, r: Registers, t: Beat)
    requires SessionInv(f, s, r)
    ensures FrontEndStep(f, t.bus).mem == AllWrites(r, s.writes).mem
  {
    hide WriteEvent;
    hide RegisterWrite;
  }

  lemma {:induction false} OneMoreWrite(r: Registers, ops: seq<WriteOp>, op: WriteOp)
    ensures AllWrites(r, ops + [op]) == RegisterWrite(AllWrites(r, ops), op.addr, op.data)
  {
    hide RegisterWrite;
    assert (ops + [op])[..|ops|] == ops;
  }

  /** The writes of some words to the frame buffer. */
  function WordWrites(words: seq<Word32>): (ops: seq<WriteOp>)
    ensures |ops| == |words|
  {
    seq(|words|, i requires 0 <= i < |words| => WriteOp(0x50, words[i]))
  }

  /** The octets of the word v at an address of the frame buffer, the highest first. */
  predicate HasWord(m: Memory, at: Address, v: Word32) {
    && Lane(m[at], 0) == v / 0x100_0000 && Lane(m[at], 1) == v / 0x1_0000 % 0x100
    && Lane(m[at], 2) == v / 0x100 % 0x100 && Lane(m[at], 3) == v % 0x100
  }

  lemma WordIsWritten(r: Registers, v: Word32)
    ensures var q := RegisterWrite(r, 0x50, v);
      && q.next == (r.next + 1) % 512 && HasWord(q.mem, r.next, v)
      && forall at: Address, u :: at != r.next && HasWord(r.mem, at, u) ==> HasWord(q.mem, at, u)
  {
    WriteAddresses(r, v);
    hide RegisterWrite;
    hide Lane;
  }

  lemma PointerIsSet(r: Registers, before: WriteOp)
    requires before.addr == 0x54 || before.addr == 0x44
    ensures RegisterWrite(r, before.addr, before.data).next == if before.addr == 0x54 then before.data % 512 else 0
  {
    WriteAddresses(r, before.data);
    hide RegisterWrite;
  }

  lemma {:induction false} LastWord(r: Registers, before: WriteOp, words: seq<Word32>)
    requires words != []
    ensures var n := |words| - 1;
      AllWrites(r, [before] + WordWrites(words))
        == RegisterWrite(AllWrites(r, [before] + WordWrites(words[..n])), 0x50, words[n])
  {
    var n := |words| - 1;
    hide RegisterWrite;
    hide AllWrites;
    assert [before] + WordWrites(words) == [before] + WordWrites(words[..n]) + [WriteOp(0x50, words[n])];
    OneMoreWrite(r, [before] + WordWrites(words[..n]), WriteOp(0x50, words[n]));
  }

  lemma {:induction false} NextWordAt(r: Registers, before: WriteOp, words: seq<Word32>)
    requires before.addr == 0x54 || before.addr == 0x44
    ensures AllWrites(r, [before] + WordWrites(words)).next
         == ((if before.addr == 0x54 then before.data % 512 else 0) + |words|) % 512
  {
    hide RegisterWrite;
    hide AllWrites;
    hide HasWord;
    if words == [] {
      assert [before] + WordWrites(words) == [] + [before];
      OneMoreWrite(r, [], before);
      PointerIsSet(AllWrites(r, []), before);
    } else {
      var n := |words| - 1;
      NextWordAt(r, before, words[..n]);
      LastWord(r, before, words);
      WordIsWritten(AllWrites(r, [before] + WordWrites(words[..n])), words[n]);
    }
  }

  lemma Apart512(start: nat, i: nat, n: nat)
    requires i < n < 512
    ensures (start + i) % 512 != (start + n) % 512
  {
  }

  /** Words that are written one after the other go to consecutive addresses, from the one that
    was set on, or from the start of the buffer after a write of the frame size. */
  lemma {:induction false} WordsInOrder(r: Registers, before: WriteOp, words: seq<Word32>, i: nat)
    requires before.addr == 0x54 || before.addr == 0x44
    requires i < |words| <= 512
    ensures var start := if before.addr == 0x54 then before.data % 512 else 0;
      HasWord(AllWrites(r, [before] + WordWrites(words)).mem, (start + i) % 512, words[i])
  {
    hide RegisterWrite;
    hide AllWrites;
    hide HasWord;
    var n := |words| - 1;
    NextWordAt(r, before, words[..n]);
    LastWord(r, before, words);
    WordIsWritten(AllWrites(r, [before] + WordWrites(words[..n])), words[n]);
    if i < n {
      WordsInOrder(r, before, words[..n], i);
      Apart512(if before.addr == 0x54 then before.data % 512 else 0, i, n);
    }
  }
}
