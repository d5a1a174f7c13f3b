/** Setting up the generator
  (lib/sw/lsi/cores/traffic-generator-gmii/traffic-generator-gmii.c). */
module Upload {
  import opened Arithmetic
  import opened Octets
  import opened BramIo
  import opened TrafficGenerator
  import opened GeneratorStream
  import opened Testframes
  import opened EndToEnd
  import opened AxiWrite
  import opened Hexstr

  /** `ioreg_write`: one write transaction. The port keeps a list of them. */
  class Port {
    var regs: Registers
    ghost const start: Registers
    ghost var writes: seq<WriteOp>

    constructor (regs: Registers)
      ensures Valid() && this.regs == start == regs && writes == []
    {
      this.regs, start, writes := regs, regs, [];
    }

    ghost predicate Valid()
      reads this
    {
      regs == AllWrites(start, writes)
    }

    method Write(addr: nat, data: Word32)
      requires Valid()
      modifies this
      ensures Valid() && writes == old(writes) + [WriteOp(addr, data)]
      ensures regs == RegisterWrite(old(regs), addr, data)
    {
      regs := RegisterWrite(regs, addr, data);
      writes := writes + [WriteOp(addr, data)];
    }
  }

  /** However the processor times the writes of a program, the hardware ends up with the
    registers and the frame buffer that the program has left in the port. */
  lemma {:induction false} WritesReachHardware(f: FrontEnd, ts: seq<Beat>, r: Registers)
    requires Resting(f) && LegalRun(NO_WRITES, f, ts)
    requires r == AllWrites(Seen(f), SessionRun(NO_WRITES, f, ts).writes)
    ensures Seen(FrontEndRun(f, ts)) == r
  {
    WritesTakeEffectOnce(f, ts);
  }

  predicate IsDynamic(testframeType: Option<string>) {
    testframeType.Some? && testframeType.value != "static"
  }

  /** Sequence number, timestamp and frame check sequence. */
  function DynamicLength(testframeType: Option<string>): nat {
    if IsDynamic(testframeType) then 8 + 10 + 4 else 0
  }

  function Pack(d0: Octet, d1: Octet, d2: Octet, d3: Octet): Word32 {
    d0 * 0x100_0000 + d1 * 0x1_0000 + d2 * 0x100 + d3
  }

  lemma WordOfPack(d0: Octet, d1: Octet, d2: Octet, d3: Octet)
    ensures WordOf(Pack(d0, d1, d2, d3)) == Word(d0, d1, d2, d3)
  {
    var v, high, top := Pack(d0, d1, d2, d3), d0 * 0x100 + d1, d0 * 0x1_0000 + d1 * 0x100 + d2;
    assert v == top * 0x100 + d3 && top == high * 0x100 + d2;
    LastOctet(top, d3);
    LastOctet(high, d2);
    LastOctet(d0, d1);
    assert v / 0x1_0000 == v / 0x100 / 0x100 && v / 0x100_0000 == v / 0x1_0000 / 0x100;
  }

  lemma LastOctet(high: nat, d: Octet)
    ensures (high * 0x100 + d) / 0x100 == high && (high * 0x100 + d) % 0x100 == d
  {
  }

  // ---- what is to be sent ----

  function PreambleOctets(): (s: seq<Octet>)
    ensures |s| == 8
  {
    [0x55, 0x55, 0x55, 0x55, 0x55, 0x55, 0x55, 0xD5]
  }

  /** The octets of the hexadecimal text, cut or padded with zeros to n. */
  function Payload(hexstr: string, n: nat): (s: seq<Octet>)
    requires IsHex(hexstr[..|hexstr| / 2 * 2])
    ensures |s| == n
  {
    var d := Decoded(hexstr);
    seq(n, i requires 0 <= i < n => if i < |d| then d[i] else 0)
  }

  /** d is octet j of what is to be sent: the preamble, the octets of the text, two digits each,
    and then zeros. */
  predicate IsText(hexstr: string, j: nat, d: Octet) {
    && (j < 7 ==> d == 0x55) && (j == 7 ==> d == 0xD5)
    && (8 <= j < |hexstr| / 2 + 8 ==> Stands(hexstr[2 * (j - 8)], d / 16) && Stands(hexstr[2 * (j - 8) + 1], d % 16))
    && (8 <= j && |hexstr| / 2 + 8 <= j ==> d == 0)
  }

  /** The first n octets of the frame buffer are that. */
  ghost predicate Carries(mem: Memory, hexstr: string, n: nat)
    requires n <= 2048
  {
    forall j :: 0 <= j < n ==> IsText(hexstr, j, Lane(mem[j / 4], j % 4))
  }

  lemma DigitsOf(hexstr: string, i: nat)
    requires IsHex(hexstr[..|hexstr| / 2 * 2]) && i < |hexstr| / 2
    ensures HexcharToByte(hexstr[2 * i]).Some? && HexcharToByte(hexstr[2 * i + 1]).Some?
    ensures Decoded(hexstr)[i] == 16 * HexcharToByte(hexstr[2 * i]).value + HexcharToByte(hexstr[2 * i + 1]).value
  {
    hide HexcharToByte;
    var t := hexstr[..|hexstr| / 2 * 2];
    assert t[2 * i] == hexstr[2 * i] && t[2 * i + 1] == hexstr[2 * i + 1];
  }

  lemma OctetOfText(hexstr: string, i: nat)
    requires IsHex(hexstr[..|hexstr| / 2 * 2]) && i < |hexstr| / 2
    ensures var d := Decoded(hexstr)[i]; Stands(hexstr[2 * i], d / 16) && Stands(hexstr[2 * i + 1], d % 16)
  {
    DigitsOf(hexstr, i);
    hide Stands;
    hide HexcharToByte;
    hide IsHex;
    hide Decoded;
    var high, low := HexcharToByte(hexstr[2 * i]).value, HexcharToByte(hexstr[2 * i + 1]).value;
    DigitStands(hexstr[2 * i], high);
    DigitStands(hexstr[2 * i + 1], low);
    OctetHalves(high, low);
  }

  lemma HoldsCarries(mem: Memory, hexstr: string, n: nat)
    requires IsHex(hexstr[..|hexstr| / 2 * 2]) && n + 8 <= 2048
    requires Holds(mem, PreambleOctets() + Payload(hexstr, n), n + 8)
    ensures Carries(mem, hexstr, n + 8)
  {
    hide Lane;
    hide Stands;
    hide IsHex;
    hide Decoded;
    var f := PreambleOctets() + Payload(hexstr, n);
    forall j | 0 <= j < n + 8
      ensures IsText(hexstr, j, Lane(mem[j / 4], j % 4))
    {
      assert Lane(mem[j / 4], j % 4) == f[j];
      if 8 <= j < |hexstr| / 2 + 8 {
        OctetOfText(hexstr, j - 8);
      }
    }
  }

  // ---- the program ----

  /** No write since is to the control register. */
  ghost predicate LeavesControl(before: seq<WriteOp>, after: seq<WriteOp>) {
    before <= after && forall k :: |before| <= k < |after| ==> after[k].addr != 0x10
  }

  /** The first i octets of the data are in memory, after the preamble. */
  ghost predicate Uploaded(mem: Memory, data: seq<Octet>, i: nat)
    requires i <= |data| && |data| + 8 <= 2048
  {
    forall j :: 0 <= j < i ==> Lane(mem[(j + 8) / 4], (j + 8) % 4) == data[j]
  }

  lemma OneMoreWord(mem: Memory, data: seq<Octet>, i: nat, mem': Memory)
    requires i < |data| && |data| + 8 <= 2048 && i % 4 == 0 && Uploaded(mem, data, i)
    requires mem' == mem[2 + i / 4 := mem'[2 + i / 4]]
    requires forall j :: i <= j < i + 4 && j < |data| ==> Lane(mem'[2 + i / 4], j - i) == data[j]
    ensures Uploaded(mem', data, if i + 4 < |data| then i + 4 else |data|)
    ensures mem'[..2] == mem[..2]
  {
    hide Lane;
    forall j | 0 <= j < i + 4 && j < |data|
      ensures Lane(mem'[(j + 8) / 4], (j + 8) % 4) == data[j]
    {
      if j >= i {
        assert (j + 8) / 4 == 2 + i / 4 && (j + 8) % 4 == j - i;
      } else {
        assert (j + 8) / 4 < 2 + i / 4;
      }
    }
  }

  /** The words after the preamble. */
  method WritePayload(port: Port, data: array<Octet>, n: nat)
    requires n <= data.Length && n <= W32 - 4
    requires port.Valid()
    modifies port
    ensures port.Valid() && LeavesControl(old(port.writes), port.writes)
    ensures port.regs.settings == old(port.regs.settings)
    ensures n + 8 <= 2048 ==> Uploaded(port.regs.mem, data[..n], n) && port.regs.mem[..2] == old(port.regs.mem[..2])
  {
    hide Lane;
    hide Uploaded;
    var i := 0;
    if n + 8 <= 2048 {
      NothingUploaded(port.regs.mem, data[..n]);
    }
    while i < n
      invariant i <= n + 3 && i % 4 == 0 && port.Valid() && LeavesControl(old(port.writes), port.writes)
      invariant port.regs.settings == old(port.regs.settings)
      invariant n + 8 <= 2048 ==> Uploaded(port.regs.mem, data[..n], if i < n then i else n)
      invariant n + 8 <= 2048 ==> port.regs.mem[..2] == old(port.regs.mem[..2])
    {
      ghost var before := port.regs.mem;
      WriteWord(port, data, n, i);
      if n + 8 <= 2048 {
        OneMoreWord(before, data[..n], i, port.regs.mem);
      }
      i := i + 4;
    }
  }

  lemma NothingUploaded(mem: Memory, data: seq<Octet>)
    requires |data| + 8 <= 2048
    ensures Uploaded(mem, data, 0)
  {
  }

  /** The two writes that put a word into the frame buffer. */
  method WriteAt(port: Port, address: Word32, data: Word32)
    requires port.Valid()
    modifies port
    ensures port.Valid() && LeavesControl(old(port.writes), port.writes)
    ensures port.regs.settings == old(port.regs.settings)
    ensures port.regs.mem == old(port.regs.mem)[address % 512 := WordOf(data)]
  {
    hide WordOf;
    hide AllWrites;
    port.Write(FRAME_BUF_ADDRESS, address);
    port.Write(FRAME_BUF, data);
  }

  method WriteWord(port: Port, data: array<Octet>, n: nat, i: nat)
    requires i < n <= data.Length && n <= W32 - 4 && i % 4 == 0
    requires port.Valid()
    modifies port
    ensures port.Valid() && LeavesControl(old(port.writes), port.writes)
    ensures port.regs.settings == old(port.regs.settings)
    ensures port.regs.mem == old(port.regs.mem)[(2 + i / 4) % 512 := port.regs.mem[(2 + i / 4) % 512]]
    ensures forall j :: i <= j < i + 4 && j < n ==> Lane(port.regs.mem[(2 + i / 4) % 512], j - i) == data[j]
  {
    var d0, d1, d2, d3 := data[i], 0, 0, 0;
    if i + 1 < n {
      d1 := data[i + 1];
    }
    if i + 2 < n {
      d2 := data[i + 2];
    }
    if i + 3 < n {
      d3 := data[i + 3];
    }
    WordOfPack(d0, d1, d2, d3);
    WriteAt(port, 2 + i / 4, Pack(d0, d1, d2, d3));
  }

  /** The settings when everything is written. The gaps are given with the preamble, which
    the generator does not count. */
  function Configured(frameSize: Word32, interframeGap: Word32, interburstGap: Word32, framesPerBurst: Word32,
                      totalFrames: nat, testframeType: Option<string>): Settings
    requires totalFrames < W64
  {
    Settings(if IsDynamic(testframeType) then 3 else 1, (interframeGap - 8) % W32, (interburstGap - 8) % W32,
             framesPerBurst, totalFrames, (frameSize + 8 - DynamicLength(testframeType)) % W32)
  }

  /** `ok` is false where the program stops at a character that is not a digit. The data
    must fit into a frame: the program copies it into as many octets. A frame has room for
    its fields, and its data ends before the 32 bits of the loop counter do. */
  method TrafficGeneratorCommon(port: Port, disable: bool, frameSize: Word32, hexstr: string, interframeGap: Word32,
                                interburstGap: Word32, framesPerBurst: Word32, totalFrames: nat,
                                testframeType: Option<string>) returns (ok: bool)
    requires totalFrames < W64 && |hexstr| / 2 <= frameSize
    requires DynamicLength(testframeType) <= frameSize <= W32 - 4 + DynamicLength(testframeType)
    requires port.Valid()
    modifies port
    ensures port.Valid()
    ensures disable ==> ok && port.regs == RegisterWrite(old(port.regs), CONTROL, 0)
    ensures !disable ==> (ok <==> IsHex(hexstr[..|hexstr| / 2 * 2]))
    ensures !disable && ok ==>
              port.regs.settings ==
                Configured(frameSize, interframeGap, interburstGap, framesPerBurst, totalFrames, testframeType)
    ensures !disable && ok ==>
              var n := frameSize - DynamicLength(testframeType);
              n + 8 <= 2048 ==> Holds(port.regs.mem, PreambleOctets() + Payload(hexstr, n), n + 8)
    ensures !disable && ok ==>
              var s, dynamic := port.regs.settings, testframeType != None && testframeType != Some("static");
              var n := if dynamic then frameSize - 22 else frameSize;
              && s.control == (if dynamic then 3 else 1) && s.frameSize == (n + 8) % 0x1_0000_0000
              && s.interframeGap == (interframeGap - 8) % 0x1_0000_0000
              && s.interburstGap == (interburstGap - 8) % 0x1_0000_0000
              && s.framesPerBurst == framesPerBurst && s.totalFrames == totalFrames
              && (n + 8 <= 2048 ==> Carries(port.regs.mem, hexstr, n + 8))
    ensures disable ==> port.writes == old(port.writes) + [WriteOp(0x10, 0)]
    ensures !disable && !ok ==> LeavesControl(old(port.writes), port.writes)
    ensures !disable && ok ==>
              var w, dynamic := port.writes, testframeType != None && testframeType != Some("static");
              && w != [] && w[|w| - 1] == WriteOp(0x10, if dynamic then 3 else 1)
              && LeavesControl(old(port.writes), w[..|w| - 1])
  {
    if disable {
      port.Write(CONTROL, 0);
      return true;
    }
    WriteSizes(port, frameSize, interframeGap, interburstGap, framesPerBurst, testframeType);
    var n := frameSize - DynamicLength(testframeType);
    var frameData: array<Octet>;
    ok, frameData := FrameData(hexstr, frameSize);
    if !ok {
      return;
    }
    PayloadPrefix(hexstr, n, frameSize);
    assert frameData[..][..n] == frameData[..n];
    hide Payload;
    hide Uploaded;
    hide Holds;
    hide Carries;
    WritePreamble(port);
    WritePayload(port, frameData, n);
    WriteControl(port, totalFrames, testframeType);
    if n + 8 <= 2048 {
      HoldsAll(port.regs.mem, hexstr, n);
      HoldsCarries(port.regs.mem, hexstr, n);
    }
  }

  /** A zeroed frame with the text decoded into it. */
  method FrameData(hexstr: string, frameSize: nat) returns (ok: bool, data: array<Octet>)
    requires |hexstr| / 2 <= frameSize
    ensures fresh(data) && data.Length == frameSize
    ensures ok <==> IsHex(hexstr[..|hexstr| / 2 * 2])
    ensures ok ==> data[..] == Payload(hexstr, frameSize)
  {
    data := new Octet[frameSize](_ => 0);
    var m := |hexstr| / 2;
    assert data[m..] == seq(frameSize - m, _ => 0);
    ok := HexstrToBin(hexstr, data);
    assert forall j :: m <= j < frameSize ==> data[j] == data[m..][j - m];
    assert ok ==> forall j :: 0 <= j < m ==> data[j] == data[..m][j] == Decoded(hexstr)[j];
    hide Decoded;
  }

  lemma PayloadPrefix(hexstr: string, n: nat, m: nat)
    requires IsHex(hexstr[..|hexstr| / 2 * 2]) && n <= m
    ensures Payload(hexstr, m)[..n] == Payload(hexstr, n)
  {
    hide Decoded;
  }

  method WriteSizes(port: Port, frameSize: Word32, interframeGap: Word32, interburstGap: Word32, framesPerBurst: Word32,
                    testframeType: Option<string>)
    requires port.Valid()
    modifies port
    ensures port.Valid() && LeavesControl(old(port.writes), port.writes)
    ensures var s := port.regs.settings;
      && s.interframeGap == (interframeGap - 8) % W32 && s.interburstGap == (interburstGap - 8) % W32
      && s.framesPerBurst == framesPerBurst && s.frameSize == (frameSize + 8 - DynamicLength(testframeType)) % W32
  {
    port.Write(INTERFRAME_GAP, (interframeGap - 8) % W32);
    port.Write(INTERBURST_GAP, (interburstGap - 8) % W32);
    port.Write(FRAMES_PER_BURST, framesPerBurst);
    port.Write(FRAME_SIZE, (frameSize + 8 - DynamicLength(testframeType)) % W32);
  }

  lemma TwoHalves(v: nat, before: nat)
    requires v < W64
    ensures v / W32 < W32 && (v / W32 * W32 + before % W32) / W32 % W32 * W32 + v % W32 == v
  {
    assert (v / W32 * W32 + before % W32) / W32 == v / W32;
  }

  method WriteControl(port: Port, totalFrames: nat, testframeType: Option<string>)
    requires totalFrames < W64
    requires port.Valid()
    modifies port
    ensures port.Valid()
    ensures var w := port.writes;
      && w != [] && w[|w| - 1] == WriteOp(0x10, if IsDynamic(testframeType) then 3 else 1)
      && LeavesControl(old(port.writes), w[..|w| - 1])
    ensures port.regs.mem == old(port.regs.mem)
    ensures port.regs.settings ==
              old(port.regs.settings).(totalFrames := totalFrames, control := if IsDynamic(testframeType) then 3 else 1)
  {
    hide AllWrites;
    TwoHalves(totalFrames, port.regs.settings.totalFrames);
    port.Write(TOTAL_FRAMES, totalFrames / W32);
    port.Write(TOTAL_FRAMES + 4, totalFrames % W32);
    port.Write(CONTROL, if IsDynamic(testframeType) then 3 else 1);
  }

  method WritePreamble(port: Port)
    requires port.Valid()
    modifies port
    ensures port.Valid() && LeavesControl(old(port.writes), port.writes)
    ensures port.regs.settings == old(port.regs.settings)
    ensures port.regs.mem[0] == Word(0x55, 0x55, 0x55, 0x55) && port.regs.mem[1] == Word(0x55, 0x55, 0x55, 0xD5)
  {
    WriteAt(port, 0, 0x55555555);
    WriteAt(port, 1, 0x555555D5);
  }

  lemma HoldsAll(mem: Memory, hexstr: string, n: nat)
    requires IsHex(hexstr[..|hexstr| / 2 * 2]) && n + 8 <= 2048 && Uploaded(mem, Payload(hexstr, n), n)
    requires mem[0] == Word(0x55, 0x55, 0x55, 0x55) && mem[1] == Word(0x55, 0x55, 0x55, 0xD5)
    ensures Holds(mem, PreambleOctets() + Payload(hexstr, n), n + 8)
  {
    var data, f := Payload(hexstr, n), PreambleOctets() + Payload(hexstr, n);
    hide Payload;
    forall i | 0 <= i < n + 8
      ensures Lane(mem[i / 4], i % 4) == f[i]
    {
      if i >= 8 {
        assert Lane(mem[(i - 8 + 8) / 4], (i - 8 + 8) % 4) == data[i - 8];
      }
    }
  }

  // ---- what the generator makes of it ----

  /** The configuration registers as the generator sees them. */
  function ConfigOf(s: Settings): Config {
    Config(s.control % 2 == 1, s.control / 2 % 2 == 1, s.interframeGap, s.interburstGap, s.framesPerBurst,
           s.totalFrames, s.frameSize)
  }

  /** The template that the generator sends is the preamble and the decoded text, cut or
    padded to what the frame size leaves for it. */
  lemma TemplateIsUpload(r: Registers, octets: seq<Octet>)
    requires 0 < |octets| == r.settings.frameSize <= 2048 && Holds(r.mem, octets, |octets|)
    ensures Template(ConfigOf(r.settings), r.mem, r.mem[0]) == octets
  {
    var c := ConfigOf(r.settings);
    forall j | 0 <= j < |octets|
      ensures TemplateOctet(r.mem, r.mem[0], j) == octets[j]
    {
    }
  }

  /** The octets between two frames are those asked for, the preamble included, exactly
    when at least 11 are: fewer leave the generator a gap register below 3, or below 0. */
  lemma GapIsAsRequested(c: Config, k: nat, requested: Word32)
    requires Usable(c) && GapRegister(c, k) == (requested - 8) % W32
    ensures Gap(c, k) + |PreambleOctets()| == requested <==> requested >= 11
  {
  }

  /** The frame on the line is as long as asked for, the preamble apart, exactly when the data
    and the preamble are at most 2 to the power 32 octets. */
  lemma LengthIsAsRequested(s: Settings, frameSize: Word32, testframeType: Option<string>)
    requires DynamicLength(testframeType) <= frameSize
    requires s.control == (if IsDynamic(testframeType) then 3 else 1)
    requires s.frameSize == (frameSize + 8 - DynamicLength(testframeType)) % W32
    ensures FrameLength(ConfigOf(s)) == |PreambleOctets()| + frameSize
       <==> frameSize - DynamicLength(testframeType) + |PreambleOctets()| <= W32
  {
  }

  /** With test frames of at least 60 octets whose data has 00 07 at octets 36 and 37, the
    generator has a test template, and the gap registers leave time to fetch it again if and
    only if no gap of 11 was asked for. */
  lemma UploadPreparesTester(r: Registers, hexstr: string, frameSize: Word32, interframeGap: Word32,
                             interburstGap: Word32, framesPerBurst: Word32, totalFrames: nat,
                             testframeType: Option<string>)
    requires totalFrames < W64 && IsDynamic(testframeType) && 60 <= frameSize <= 2048 + 14
    requires IsHex(hexstr[..|hexstr| / 2 * 2])
    requires var p := Payload(hexstr, frameSize - 22); p[36] == 0 && p[37] == 7
    requires r.settings ==
               Configured(frameSize, interframeGap, interburstGap, framesPerBurst, totalFrames, testframeType)
    requires Holds(r.mem, PreambleOctets() + Payload(hexstr, frameSize - 22), frameSize - 14)
    ensures TestTemplate(ConfigOf(r.settings), r.mem)
    ensures Refetches(ConfigOf(r.settings)) <==> interframeGap != 11 && (framesPerBurst > 0 ==> interburstGap != 11)
  {
    var p := PreambleOctets() + Payload(hexstr, frameSize - 22);
    assert |p| == r.settings.frameSize;
    TemplateIsUpload(r, p);
    var t := Template(ConfigOf(r.settings), r.mem, r.mem[0]);
    assert p[44] == 0 && p[45] == 7;
    assert forall j :: 0 <= j < 46 ==> TemplateOctet(r.mem, r.mem[0], j) == t[j];
  }
}
