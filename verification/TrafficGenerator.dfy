/** The traffic generator
  (lib/hw/lsi/cores/traffic_generator_gmii/hdl/traffic_generator_gmii.v). */
module TrafficGenerator {
  import opened Arithmetic
  import opened Octets
  import opened EthernetCrc8
  import opened Gmii
  import opened BramIo

  /** The configuration registers, settled while the generator runs. */
  datatype Config = Config(
    run: bool, dynamic: bool, interframeGap: nat, interburstGap: nat,
    framesPerBurst: nat, totalFrames: nat, frameSize: nat)

  /** `timestamp[0..9]`: six octets of seconds and four of nanoseconds. */
  function StampOctets(t: Time): (s: seq<Octet>)
    ensures |s| == 10
  {
    BigEndian(t.sec, 6) + BigEndian(t.nsec, 4)
  }

  type Stamp = s: seq<Octet> | |s| == 10 witness seq(10, _ => 0)

  /** The sequencing registers. */
  datatype Sequencer = Sequencer(
    run: bool, timestampEnable: bool, state: nat, nextState: nat,
    dataCounter: nat, dataCounterLast: nat, gapCounter: nat, gapCounterLast: nat,
    seqnumCounter: nat, timestampCounter: nat, crcCounter: nat,
    frames: nat, burstIndex: nat, pkts: nat)

  /** The octet pipeline: frame buffer output, data, timestamp, CRC controls and the line. */
  datatype Pipeline = Pipeline(
    gmii: Cycle, dataT0: Octet, stamp: Stamp, address: Address, outData: Word, outDataR: Word,
    crcCalc: bool, crcInit: bool, crcDValid: bool, crc: CrcRegs)

  datatype Generator = Generator(seqr: Sequencer, pipe: Pipeline)

  // ---- one clock edge, state by state ----

  function StartIdle(s: Sequencer, c: Config): Sequencer {
    if s.run then
      var next := (s.burstIndex + 1) % W32;
      var t := s.(dataCounter := 0, dataCounterLast := (c.frameSize - 1) % W32, gapCounter := 0,
                  seqnumCounter := 0, timestampCounter := 0, crcCounter := 0,
                  state := if s.frames != c.totalFrames || c.totalFrames == 0 then 1 else 0);
      if c.framesPerBurst == 0 then t.(gapCounterLast := (c.interframeGap - 3) % W32)
      else if next == c.framesPerBurst then t.(burstIndex := 0, gapCounterLast := (c.interburstGap - 3) % W32)
      else t.(burstIndex := next, gapCounterLast := (c.interframeGap - 3) % W32)
    else
      s.(state := 0, frames := 0, burstIndex := 0)
  }

  function Sequence(s: Sequencer, c: Config): Sequencer {
    match s.state
    case 0 => StartIdle(s, c)
    case 1 =>
      s.(dataCounter := (s.dataCounter + 1) % W32,
         state := if s.dataCounter < s.dataCounterLast then 1 else s.nextState,
         pkts := if s.dataCounter < s.dataCounterLast then s.pkts else (s.pkts + 1) % W64,
         nextState := if s.timestampEnable then 3 else 6)
    case 2 =>
      s.(gapCounter := (s.gapCounter + 1) % W32,
         state := if s.gapCounter < s.gapCounterLast then 2 else 0,
         frames := if s.gapCounter < s.gapCounterLast then s.frames else (s.frames + 1) % W64)
    case 3 =>
      s.(seqnumCounter := (s.seqnumCounter + 1) % 32, state := if s.seqnumCounter == 7 then 4 else 3)
    case 4 =>
      s.(timestampCounter := (s.timestampCounter + 1) % 32, state := if s.timestampCounter == 9 then 5 else 4)
    case 5 =>
      s.(crcCounter := (s.crcCounter + 1) % 32, state := if s.crcCounter == 4 then 2 else 5)
    case 6 => s.(state := 2)
    case _ => s
  }

  function Propagate(p: Pipeline, s: Sequencer, c: Config, now: Time): Pipeline {
    match s.state
    case 0 =>
      var q := p.(gmii := IDLE);
      if s.run && (s.frames != c.totalFrames || c.totalFrames == 0) then
        q.(outDataR := p.outData, address := 1)
      else q
    case 1 =>
      p.(dataT0 := Lane(p.outDataR, s.dataCounter % 4),
         address := if s.dataCounter % 4 == 3 then (p.address + 1) % 512 else p.address,
         outDataR := if s.dataCounter % 4 == 3 then p.outData else p.outDataR,
         gmii := if s.dataCounter > 0 then Cycle(true, p.dataT0) else p.gmii,
         stamp := if s.dataCounter == 1 then StampOctets(now) else p.stamp,
         crcCalc := s.dataCounter == 8 || p.crcCalc,
         crcInit := s.dataCounter != 8 && p.crcInit,
         crcDValid := s.dataCounter == 8 || p.crcDValid)
    case 2 =>
      p.(gmii := IDLE, address := 0, crcCalc := false, crcInit := true, crcDValid := false)
    case 3 =>
      p.(dataT0 := if s.seqnumCounter < 8 then BigEndian(s.frames, 8)[s.seqnumCounter] else p.dataT0,
         gmii := p.gmii.(d := p.dataT0))
    case 4 =>
      p.(dataT0 := if s.timestampCounter < 10 then p.stamp[s.timestampCounter] else p.dataT0,
         gmii := p.gmii.(d := p.dataT0))
    case 5 =>
      p.(crcCalc := false, gmii := Cycle(true, if s.crcCounter == 0 then p.dataT0 else p.crc.crc))
    case 6 => p.(gmii := p.gmii.(d := p.dataT0))
    case _ => p
  }

  /** One clock edge of the generator, its CRC circuit and the read port of its frame buffer. */
  function GenerateStep(g: Generator, c: Config, mem: Memory, reset: bool, now: Time): Generator {
    var s, p := g.seqr, g.pipe;
    var crc := CrcStep(p.crc, reset, p.dataT0, p.crcCalc, p.crcInit, p.crcDValid);
    if reset then
      Generator(s.(run := c.run, timestampEnable := c.dynamic, state := 0, gapCounter := 0, burstIndex := 0, pkts := 0),
                p.(gmii := IDLE, address := 0, crcCalc := false, crcInit := true, crcDValid := false,
                   crc := crc, outData := Word(0, 0, 0, 0)))
    else
      Generator(Sequence(s, c).(run := c.run, timestampEnable := c.dynamic),
                Propagate(p, s, c, now).(crc := crc, outData := mem[p.address]))
  }

  // ---- the generator as a device ----

  datatype CrcControl = CrcControl(calculate: bool, init: bool, dValid: bool)

  class GeneratorDevice {
    var seqr: Sequencer
    var gmii: Cycle
    var dataT0: Octet
    var stamp: Stamp
    var address: Address
    var outDataR: Word
    var control: CrcControl
    const crc: Crc8
    const bram: Bram

    /** Registers power up with whatever is in them. */
    constructor (crc: Crc8, bram: Bram, g: Generator)
      requires bram.mem.Length == 512
      ensures this.crc == crc && this.bram == bram && Valid()
      ensures Regs() == g.(pipe := g.pipe.(outData := bram.oData, crc := crc.Regs()))
    {
      this.crc, this.bram := crc, bram;
      seqr, gmii, dataT0, stamp := g.seqr, g.pipe.gmii, g.pipe.dataT0, g.pipe.stamp;
      address, outDataR := g.pipe.address, g.pipe.outDataR;
      control := CrcControl(g.pipe.crcCalc, g.pipe.crcInit, g.pipe.crcDValid);
    }

    ghost predicate Valid() {
      bram.mem.Length == 512
    }

    function Regs(): Generator
      reads this, crc, bram
    {
      Generator(seqr, Pipeline(gmii, dataT0, stamp, address, bram.oData, outDataR,
                               control.calculate, control.init, control.dValid, crc.Regs()))
    }

    /** What the clocked process does in the present state. */
    ghost function Advanced(c: Config, now: Time): Generator
      reads this, crc, bram
    {
      Generator(Sequence(seqr, c), Propagate(Regs().pipe, seqr, c, now))
    }

    method StepIdle(c: Config)
      requires seqr.state == 0
      modifies this
      ensures forall now :: Regs() == old(Advanced(c, now))
    {
      var s := seqr;
      gmii := IDLE;
      if s.run {
        seqr := seqr.(dataCounter := 0, dataCounterLast := (c.frameSize - 1) % W32, gapCounter := 0);
        if c.framesPerBurst == 0 {
          seqr := seqr.(gapCounterLast := (c.interframeGap - 3) % W32);
        } else if (s.burstIndex + 1) % W32 == c.framesPerBurst {
          seqr := seqr.(burstIndex := 0, gapCounterLast := (c.interburstGap - 3) % W32);
        } else {
          seqr := seqr.(burstIndex := (s.burstIndex + 1) % W32, gapCounterLast := (c.interframeGap - 3) % W32);
        }
        seqr := seqr.(seqnumCounter := 0, timestampCounter := 0, crcCounter := 0);
        if s.frames != c.totalFrames || c.totalFrames == 0 {
          seqr := seqr.(state := 1);
          outDataR, address := bram.oData, 1;
        }
      } else {
        seqr := seqr.(state := 0, frames := 0, burstIndex := 0);
      }
    }

    method StepTemplate(c: Config, now: Time)
      requires seqr.state == 1
      modifies this
      ensures Regs() == old(Advanced(c, now))
    {
      hide StampOctets;
      hide StartIdle;
      hide Lane;
      hide BigEndian;
      ghost var p := Regs().pipe;
      var s := seqr;
      var data := Lane(outDataR, s.dataCounter % 4);
      if s.dataCounter % 4 == 3 {
        address, outDataR := (address + 1) % 512, bram.oData;
      }
      if s.dataCounter > 0 {
        gmii := Cycle(true, dataT0);
      }
      dataT0 := data;
      if s.dataCounter == 1 {
        stamp := StampOctets(now);
      }
      if s.dataCounter < s.dataCounterLast {
        seqr := seqr.(state := 1);
      } else {
        seqr := seqr.(state := s.nextState, pkts := (s.pkts + 1) % W64);
      }
      seqr := seqr.(dataCounter := (s.dataCounter + 1) % W32, nextState := if s.timestampEnable then 3 else 6);
      if s.dataCounter == 8 {
        control := CrcControl(true, false, true);
      }
      assert seqr == Sequence(s, c);
      assert Regs().pipe == Propagate(p, s, c, now);
      hide Sequence;
      hide Propagate;
    }

    method StepGap(c: Config)
      requires seqr.state == 2
      modifies this
      ensures forall now :: Regs() == old(Advanced(c, now))
    {
      var s := seqr;
      seqr := seqr.(gapCounter := (s.gapCounter + 1) % W32);
      gmii, address := IDLE, 0;
      if s.gapCounter >= s.gapCounterLast {
        seqr := seqr.(state := 0, frames := (s.frames + 1) % W64);
      }
      control := CrcControl(false, true, false);
    }

    /** The sequence number, then the timestamp. */
    method StepFields(c: Config)
      requires seqr.state == 3 || seqr.state == 4
      modifies this
      ensures forall now :: Regs() == old(Advanced(c, now))
    {
      var s := seqr;
      gmii := gmii.(d := dataT0);
      if s.state == 3 {
        seqr := seqr.(seqnumCounter := (s.seqnumCounter + 1) % 32, state := if s.seqnumCounter == 7 then 4 else 3);
        if s.seqnumCounter < 8 {
          dataT0 := BigEndian(s.frames, 8)[s.seqnumCounter];
        }
      } else {
        seqr := seqr.(timestampCounter := (s.timestampCounter + 1) % 32,
                      state := if s.timestampCounter == 9 then 5 else 4);
        if s.timestampCounter < 10 {
          dataT0 := stamp[s.timestampCounter];
        }
      }
    }

    /** The frame check sequence, or the last octet of a static frame. */
    method StepEnd(c: Config)
      requires seqr.state == 5 || seqr.state == 6
      modifies this
      ensures forall now :: Regs() == old(Advanced(c, now))
    {
      var s := seqr;
      if s.state == 5 {
        seqr := seqr.(crcCounter := (s.crcCounter + 1) % 32);
        control := control.(calculate := false);
        if s.crcCounter == 0 {
          gmii := Cycle(true, dataT0);
        } else {
          gmii := Cycle(true, crc.crc);
        }
        if s.crcCounter == 4 {
          seqr := seqr.(state := 2);
        }
      } else {
        gmii := gmii.(d := dataT0);
        seqr := seqr.(state := 2);
      }
    }

    method Reset()
      modifies this
      ensures var g := old(Regs());
        Regs() == Generator(
          g.seqr.(state := 0, gapCounter := 0, burstIndex := 0, pkts := 0),
          g.pipe.(gmii := IDLE, address := 0, crcCalc := false, crcInit := true, crcDValid := false))
    {
      gmii, address := IDLE, 0;
      seqr := seqr.(state := 0, gapCounter := 0, burstIndex := 0, pkts := 0);
      control := CrcControl(false, true, false);
    }

    method Advance(c: Config, now: Time)
      modifies this
      ensures Regs() == old(Advanced(c, now))
    {
      if seqr.state == 0 {
        StepIdle(c);
      } else if seqr.state == 1 {
        StepTemplate(c, now);
      } else if seqr.state == 2 {
        StepGap(c);
      } else if seqr.state == 3 || seqr.state == 4 {
        StepFields(c);
      } else if seqr.state == 5 || seqr.state == 6 {
        StepEnd(c);
      }
    }

    method Step(c: Config, reset: bool, now: Time)
      requires Valid()
      modifies this, crc, bram
      ensures Regs() == GenerateStep(old(Regs()), c, bram.mem[..], reset, now)
    {
      hide CrcStep;
      hide Sequence;
      hide Propagate;
      var data, settings, fetch := dataT0, control, address;
      if reset {
        Reset();
      } else {
        Advance(c, now);
      }
      seqr := seqr.(run := c.run, timestampEnable := c.dynamic);
      crc.Step(reset, data, settings.calculate, settings.init, settings.dValid);
      bram.ReadPort(reset, fetch);
    }
  }
}
