/** What is on the line when the generator has been set up by its program. */
module UploadOnLine {
  import opened Arithmetic
  import opened Gmii
  import opened BramIo
  import opened TrafficGenerator
  import opened GeneratorStream
  import opened GeneratorRuns
  import opened Hexstr
  import opened AxiWrite
  import opened Upload

  /** A generator that begins with frame 0, with the registers and the buffer that the program has
    left: n octets of data, test frames or static ones. */
  ghost predicate SetUp(g: Generator, r: Registers, hexstr: string, n: nat, dynamic: bool) {
    && 0 < n && n + 8 <= 2048
    && r.settings.control == (if dynamic then 3 else 1) && r.settings.frameSize == n + 8 && r.settings.totalFrames < W64
    && Carries(r.mem, hexstr, n + 8) && Ready(g, ConfigOf(r.settings), r.mem)
  }

  /** The control register that the program writes switches the generator on, with the fields of
    test frames or without, and its 0 switches it off. */
  lemma ControlBits(s: Settings)
    ensures s.control == 3 ==> ConfigOf(s).run && ConfigOf(s).dynamic
    ensures s.control == 1 ==> ConfigOf(s).run && !ConfigOf(s).dynamic
    ensures s.control == 0 ==> !ConfigOf(s).run
  {
  }

  lemma IsUsable(g: Generator, r: Registers, hexstr: string, n: nat, dynamic: bool)
    requires SetUp(g, r, hexstr, n, dynamic)
    ensures var c := ConfigOf(r.settings);
      && Usable(c) && c.dynamic == dynamic && Size(c) == n + 8
      && FrameLength(c) == if dynamic then n + 30 else n + 8
  {
    hide Carries;
    hide Ready;
  }

  lemma {:induction false} TemplateOnLine(g: Generator, c: Config, mem: Memory, times: seq<Time>, k: nat, j: nat)
    requires Usable(c) && Ready(g, c, mem) && Sent(c, k) && FirstWord(c, mem, k) == mem[0] && j < Size(c) <= 2048
    requires FrameStart(c, k) + FrameLength(c) <= |times|
    ensures Output(g, c, mem, times, FrameStart(c, k) + j) == Cycle(true, Lane(mem[j / 4], j % 4))
  {
    hide Frame;
    hide Ready;
    hide Output;
    hide FirstWord;
    hide SlotStart;
    hide Gap;
    hide Lane;
    hide Usable;
    hide StampOf;
    FrameBeginsWithTemplate(c, mem, mem[0], k, StampOf(c, times, k), j);
    SlotHasFrame(c, k, j);
    SendsFrames(g, c, mem, times, k, 2 + j);
    assert j / 4 % 512 == j / 4;
  }

  lemma {:induction false} SlotHasFrame(c: Config, k: nat, j: nat)
    requires j < Size(c)
    ensures j < FrameLength(c) && 2 + j < SlotLength(c, k) && FrameStart(c, k) + j == SlotStart(c, k) + (2 + j)
  {
    hide Gap;
    hide SlotStart;
    hide Size;
  }

  /** Octet j of frame k: seven octets 0x55, one 0xD5, then the octets of the text, two digits
    each, then zeros. */
  lemma {:induction false} TextOnLine(g: Generator, r: Registers, hexstr: string, n: nat, dynamic: bool,
                                      times: seq<Time>, k: nat, j: nat)
    requires SetUp(g, r, hexstr, n, dynamic) && Sent(ConfigOf(r.settings), k) && j < n + 8
    requires FirstWord(ConfigOf(r.settings), r.mem, k) == r.mem[0]
    requires FrameStart(ConfigOf(r.settings), k) + FrameLength(ConfigOf(r.settings)) <= |times|
    ensures Usable(ConfigOf(r.settings))
    ensures var c := ConfigOf(r.settings);
      var o := Output(g, c, r.mem, times, FrameStart(c, k) + j);
      && o.en
      && (j < 7 ==> o.d == 0x55) && (j == 7 ==> o.d == 0xD5)
      && (8 <= j < |hexstr| / 2 + 8 ==>
            Stands(hexstr[2 * (j - 8)], o.d / 16) && Stands(hexstr[2 * (j - 8) + 1], o.d % 16))
      && (j >= |hexstr| / 2 + 8 ==> o.d == 0)
  {
    var c := ConfigOf(r.settings);
    IsUsable(g, r, hexstr, n, dynamic);
    TemplateOnLine(g, c, r.mem, times, k, j);
    assert IsText(hexstr, j, Lane(r.mem[j / 4], j % 4));
    hide SetUp;
    hide Ready;
    hide Output;
    hide ConfigOf;
    hide Usable;
    hide Lane;
    hide Stands;
  }

  /** From the first octet of a frame to that of the next it takes as many cycles as the frame
    has octets without its preamble, and the gap that was asked for, of at least 11: that between
    bursts after the last frame of a burst, that between frames after any other. */
  lemma {:induction false} FramesApart(g: Generator, r: Registers, hexstr: string, n: nat, dynamic: bool, k: nat,
                                       interframeGap: Word32, interburstGap: Word32)
    requires SetUp(g, r, hexstr, n, dynamic)
    requires r.settings.interframeGap == (interframeGap - 8) % W32
    requires r.settings.interburstGap == (interburstGap - 8) % W32
    ensures
      var c, burst := ConfigOf(r.settings), r.settings.framesPerBurst;
      var asked := if burst > 0 && (k + 1) % burst == 0 then interburstGap else interframeGap;
      asked >= 11 ==>
        FrameStart(c, k + 1) - FrameStart(c, k) == (if dynamic then n + 22 else n) + asked
  {
    IsUsable(g, r, hexstr, n, dynamic);
    hide SetUp;
    var c := ConfigOf(r.settings);
    var burst := c.framesPerBurst;
    var asked := if burst > 0 && (k + 1) % burst == 0 then interburstGap else interframeGap;
    assert GapRegister(c, k) == (asked - 8) % W32;
    GapIsAsRequested(c, k, asked);
    hide Gap;
    hide GapRegister;
    assert SlotStart(c, k + 1) == SlotStart(c, k) + SlotLength(c, k);
    assert asked >= 11 ==> Gap(c, k) + 8 == asked;
    assert SlotLength(c, k) == FrameLength(c) + Gap(c, k);
  }

  /** As many frames are sent as were asked for, and no more, unless that is 0. */
  lemma {:induction false} FramesAskedFor(g: Generator, r: Registers, hexstr: string, n: nat, dynamic: bool,
                                          times: seq<Time>, t: nat)
    requires SetUp(g, r, hexstr, n, dynamic) && r.settings.totalFrames > 0
    requires SlotStart(ConfigOf(r.settings), r.settings.totalFrames) <= t <= |times|
    ensures Usable(ConfigOf(r.settings))
    ensures var w := WireRun(SILENT, Line(g, ConfigOf(r.settings), r.mem, times, t));
      w.cur == [] && |w.done| == r.settings.totalFrames
  {
    IsUsable(g, r, hexstr, n, dynamic);
    SendsExactlyTotalFrames(g, ConfigOf(r.settings), r.mem, times, t);
    hide Usable;
    hide Ready;
    hide Carries;
    hide Line;
    hide SlotStart;
    hide FrameOf;
  }
}
