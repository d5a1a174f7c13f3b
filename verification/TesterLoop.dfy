/** The generator connected to the analyzer, directly
  (lib/hw/lsi/cores/traffic_analyzer_gmii/sim/tester_loop.v) or through the filter
  (systems/simulation/tester_loop.v), both on one clock. */
module TesterLoop {
  import opened Gmii
  import opened BramIo
  import opened TrafficAnalyzer
  import opened Receiver
  import opened TrafficGenerator
  import opened RtClock
  import opened FilterGmii

  datatype Tester = Tester(clock: ClockRegs, gen: Generator, filter: FilterRegs, rx: Receiver)

  /** How the tester is set up and wired. */
  datatype Setup = Setup(ratio: Ratio, gen: Config, mem: Memory, filtered: bool, minGap: nat)

  function LineToAnalyzer(s: Tester, filtered: bool): Cycle {
    if filtered then s.filter.out else s.gen.pipe.gmii
  }

  function InputToAnalyzer(s: Tester, u: Setup, run: bool): Input {
    Input(LineToAnalyzer(s, u.filtered), s.clock.out, run, false)
  }

  /** One clock edge: every core sees the registers of the others before it. */
  function TesterEdge(s: Tester, u: Setup, run: bool, i: ClockInput): Tester {
    Tester(ClockStep(s.clock, u.ratio, false, i),
           GenerateStep(s.gen, u.gen, u.mem, false, s.clock.out),
           FilterStep(s.filter, u.minGap, s.gen.pipe.gmii),
           ReceiverStep(s.rx, InputToAnalyzer(s, u, run)))
  }

  /** A clock edge while the analyzer runs. */
  function TesterStep(s: Tester, u: Setup, i: ClockInput): Tester {
    TesterEdge(s, u, true, i)
  }

  class TesterDevice {
    const filtered: bool
    const clock: Clock
    const gen: GeneratorDevice
    const filter: Filter
    const rx: ReceiverDevice

    constructor (filtered: bool, clock: Clock, gen: GeneratorDevice, filter: Filter, rx: ReceiverDevice)
      requires gen.Valid() && rx.Valid() && gen.crc != rx.checker.crc
      requires gen.bram != rx.analyzer.bram && gen.bram.mem != rx.analyzer.bram.mem
      ensures Valid() && this.filtered == filtered
      ensures this.clock == clock && this.gen == gen && this.filter == filter && this.rx == rx
    {
      this.filtered, this.clock, this.gen, this.filter, this.rx := filtered, clock, gen, filter, rx;
    }

    ghost predicate Valid() {
      && gen.Valid() && rx.Valid() && gen.crc != rx.checker.crc
      && gen.bram != rx.analyzer.bram && gen.bram.mem != rx.analyzer.bram.mem
    }

    function Regs(): Tester
      requires Valid()
      reads clock, gen, gen.crc, gen.bram, filter
      reads rx.checker, rx.checker.crc, rx.parser, rx.parser.history, rx.analyzer, rx.analyzer.bram.mem
    {
      Tester(clock.Regs(), gen.Regs(), filter.Regs(), rx.Regs())
    }

    /** The cores in front of the analyzer. */
    method StepSender(c: Config, minGap: nat, i: ClockInput)
      requires Valid()
      modifies clock, gen, gen.crc, gen.bram, filter
      ensures clock.Regs() == ClockStep(old(clock.Regs()), clock.ratio, false, i)
      ensures gen.Regs() == GenerateStep(old(gen.Regs()), c, gen.bram.mem[..], false, old(clock.out))
      ensures filter.Regs() == FilterStep(old(filter.Regs()), minGap, old(gen.gmii))
    {
      hide ClockStep;
      hide GenerateStep;
      hide FilterStep;
      var now, sent := clock.out, gen.gmii;
      clock.Step(false, i);
      gen.Step(c, false, now);
      filter.Step(minGap, sent);
    }

    method Step(c: Config, minGap: nat, run: bool, i: ClockInput)
      requires Valid()
      modifies clock, gen, gen.crc, gen.bram, filter
      modifies rx.checker, rx.checker.crc, rx.parser, rx.parser.history, rx.analyzer, rx.analyzer.bram.mem
      ensures Regs() == TesterEdge(old(Regs()), Setup(clock.ratio, c, old(gen.bram.mem[..]), filtered, minGap), run, i)
    {
      hide ClockStep;
      hide GenerateStep;
      hide FilterStep;
      hide ReceiverStep;
      var line := if filtered then filter.out else gen.gmii;
      var now := clock.out;
      StepSender(c, minGap, i);
      rx.Step(Input(line, now, run, false));
    }
  }
}
