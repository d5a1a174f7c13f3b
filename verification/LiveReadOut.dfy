/** Reading the analyzer while frames go on arriving. */
module LiveReadOut {
  import opened BramIo
  import opened CrcCheck
  import opened TrafficAnalyzer
  import opened Receiver
  import opened ReceiverRuns
  import opened FreezeCapture
  import opened AxiRead

  // ---- line and bus together ----

  /** An edge of the clock of the line, or of that of the bus. */
  datatype Edge = LineEdge(i: Input) | BusEdge(b: ReadBus)

  datatype Live = Live(rx: Receiver, end: ReadEnd, session: ReadSession)

  function LiveStep(x: Live, flip: nat, e: Edge): Live {
    match e
    case LineEdge(i) => x.(rx := ReceiverStep(x.rx, i))
    case BusEdge(b) =>
      x.(end := ReadEndStep(x.end, RegisterFile(x.rx.ana, flip), b), session := ReadSessionStep(x.session, x.end, b))
  }

  function LiveRun(x: Live, flip: nat, es: seq<Edge>): Live {
    if es == [] then x else LiveStep(LiveRun(x, flip, es[..|es| - 1]), flip, es[|es| - 1])
  }

  /** Anything may arrive while the statistics are frozen, and the processor reads one register
    at a time. */
  ghost predicate LegalEdge(x: Live, e: Edge) {
    match e
    case LineEdge(i) => i.run && i.freeze
    case BusEdge(b) => MayRead(x.session.phase, b)
  }

  ghost predicate LegalEdges(x: Live, flip: nat, es: seq<Edge>) {
    es != [] ==>
      var front := es[..|es| - 1];
      LegalEdges(x, flip, front) && LegalEdge(LiveRun(x, flip, front), es[|es| - 1])
  }

  /** A state in which nothing that can be read is about to change. */
  ghost predicate Settled(r: Receiver, base: seq<Shifted>, l: Log) {
    && ReceiverInv(r, base, l) && LogInv(l) && l.freeze && !Capturing(l) && LatencyShown(r.ana.latency)
  }

  lemma StaysSettled(r: Receiver, base: seq<Shifted>, l: Log, i: Input)
    requires Settled(r, base, l) && i.run && i.freeze
    ensures Settled(ReceiverStep(r, i), base, LogStep(l, i)) && SameReadable(ReceiverStep(r, i).ana, r.ana)
  {
    hide ReceiverInv;
    hide ReceiverStep;
    hide LogStep;
    hide LogInv;
    hide Capturing;
    hide SameReadable;
    hide LatencyShown;
    assert [i][..0] == [];
    NothingIsCaptured(l, [i]);
    ReceiverRunInv(r, base, l, [i]);
    NothingReadableChanges(r, base, l, [i]);
  }

  /** The read front end does not notice any other register. */
  lemma ReadsSeeOnlyReadable(f: ReadEnd, a: AnalyzerRegs, a': AnalyzerRegs, flip: nat, b: ReadBus)
    requires SameReadable(a, a')
    ensures ReadEndStep(f, RegisterFile(a, flip), b) == ReadEndStep(f, RegisterFile(a', flip), b)
  {
    hide Bits32Of;
    SameMux(a, a', flip, f.bufData, f.araddr);
    hide ReadMux;
  }

  lemma SameMux(a: AnalyzerRegs, a': AnalyzerRegs, flip: nat, word: Word, addr: nat)
    requires SameReadable(a, a')
    ensures ReadMux(RegisterFile(a, flip), word, addr) == ReadMux(RegisterFile(a', flip), word, addr)
  {
    hide Bits32Of;
    hide WideAt;
    hide NarrowAt;
  }

  function LineOf(es: seq<Edge>): seq<Input> {
    if es == [] then []
    else LineOf(es[..|es| - 1]) + match es[|es| - 1] case LineEdge(i) => [i] case BusEdge(_) => []
  }

  function BusOf(es: seq<Edge>): seq<ReadBus> {
    if es == [] then []
    else BusOf(es[..|es| - 1]) + match es[|es| - 1] case LineEdge(_) => [] case BusEdge(b) => [b]
  }

  /** The line side goes on as if nobody was reading, the bus side as if nothing arrived. */
  ghost predicate Apart(x: Live, flip: nat, base: seq<Shifted>, l: Log, es: seq<Edge>) {
    var y, regs := LiveRun(x, flip, es), RegisterFile(x.rx.ana, flip);
    && y.rx == ReceiverRun(x.rx, LineOf(es))
    && y.end == ReadEndRun(x.end, regs, BusOf(es)) && y.session == ReadSessionRun(x.session, x.end, regs, BusOf(es))
    && LegalReads(x.session, x.end, regs, BusOf(es))
    && SameReadable(y.rx.ana, x.rx.ana) && Settled(y.rx, base, LogRun(l, LineOf(es)))
  }

  lemma {:induction false} LineAndBusApart(x: Live, flip: nat, base: seq<Shifted>, l: Log, es: seq<Edge>)
    requires Settled(x.rx, base, l) && LegalEdges(x, flip, es)
    ensures Apart(x, flip, base, l, es)
  {
    hide Settled;
    hide SameReadable;
    hide LegalEdge;
    if es == [] {
      NothingYet(x, flip, base, l);
    } else {
      var front, e := es[..|es| - 1], es[|es| - 1];
      LineAndBusApart(x, flip, base, l, front);
      match e {
        case LineEdge(i) => ApartOnLine(x, flip, base, l, es, i);
        case BusEdge(b) => ApartOnBus(x, flip, base, l, es, b);
      }
    }
    hide Apart;
  }

  lemma NothingYet(x: Live, flip: nat, base: seq<Shifted>, l: Log)
    requires Settled(x.rx, base, l)
    ensures Apart(x, flip, base, l, [])
  {
    hide Settled;
  }

  lemma {:induction false} ApartOnLine(x: Live, flip: nat, base: seq<Shifted>, l: Log, es: seq<Edge>, i: Input)
    requires es != [] && es[|es| - 1] == LineEdge(i) && Apart(x, flip, base, l, es[..|es| - 1])
    requires LegalEdge(LiveRun(x, flip, es[..|es| - 1]), LineEdge(i))
    ensures Apart(x, flip, base, l, es)
  {
    hide Settled;
    hide ReceiverStep;
    hide LogStep;
    hide ReadEndRun;
    hide ReadSessionRun;
    hide LegalReads;
    var front := es[..|es| - 1];
    var y, line := LiveRun(x, flip, front), LineOf(front);
    StaysSettled(y.rx, base, LogRun(l, line), i);
    assert (line + [i])[..|line|] == line;
    assert BusOf(front) + [] == BusOf(front);
  }

  lemma {:induction false} ApartOnBus(x: Live, flip: nat, base: seq<Shifted>, l: Log, es: seq<Edge>, b: ReadBus)
    requires es != [] && es[|es| - 1] == BusEdge(b) && Apart(x, flip, base, l, es[..|es| - 1])
    requires LegalEdge(LiveRun(x, flip, es[..|es| - 1]), BusEdge(b))
    ensures Apart(x, flip, base, l, es)
  {
    hide Settled;
    hide SameReadable;
    hide ReadEndStep;
    hide ReadSessionStep;
    hide MayRead;
    hide ReceiverRun;
    hide LogRun;
    var front := es[..|es| - 1];
    var y, bus := LiveRun(x, flip, front), BusOf(front);
    ReadsSeeOnlyReadable(y.end, y.rx.ana, x.rx.ana, flip, b);
    assert (bus + [b])[..|bus|] == bus;
    assert LineOf(front) + [] == LineOf(front);
  }

  /** The read front end has nothing to do. */
  predicate AtRest(f: ReadEnd) {
    !f.arready && !f.rvalid && !f.bufInc
  }

  /** While the statistics are frozen, no unfrozen frame is in flight and no latency is on its
    way, whatever arrives between the reads and however the processor times them, it gets the
    values that the registers had at the start. */
  lemma {:induction false} ReadsAreOfOneState(x: Live, flip: nat, base: seq<Shifted>, l: Log, es: seq<Edge>)
    requires Settled(x.rx, base, l) && LegalEdges(x, flip, es)
    requires x.session == NO_READS && AtRest(x.end)
    ensures var s, regs := LiveRun(x, flip, es).session, RegisterFile(x.rx.ana, flip);
      && |s.values| == |s.asked| - (if s.phase.Awaiting? then 1 else 0)
      && s.values == AllReads(regs, x.end.bufAddress, s.asked)[..|s.values|]
  {
    hide Settled;
    hide LegalReads;
    hide SameReadable;
    hide AllReads;
    LineAndBusApart(x, flip, base, l, es);
    ReadsAreAnswered(x.end, RegisterFile(x.rx.ana, flip), BusOf(es));
  }
}
