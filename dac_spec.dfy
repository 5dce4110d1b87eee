/**
 * The STM32 DAC driver's two output channels as values: what each request
 * and each DMA half-transfer interrupt does to a channel record, to the
 * `DAC->CR` register and to the DAC clock, and which hardware and
 * completion effects it has, in order.
 *
 * One build configuration is modelled: STM32F1, streaming and wave support
 * (`DAC_STREAM`), both channels usable (`DAC_MANY`), no dual-channel mode,
 * output buffer on (`DAC_BOFF` = 0), a DMA fifo of 512 16-bit samples.
 */
module DacSpec {
  import opened Common

  /** `DAC_CHANNELS_COUNT_USER`. */
  const CHANNELS: nat := 2
  /** `DAC_DMA_FIFO_SIZE`, in samples. */
  const DMA_FIFO_SIZE: nat := 512
  /** `sizeof(SAMPLE)`. */
  const SAMPLE_SIZE: nat := 2
  /** `HALF_FIFO_BYTES`: `(DAC_DMA_FIFO_SIZE >> 1) * sizeof(SAMPLE)`. */
  const HALF_FIFO_BYTES: nat := 512
  /** The size of the fifo `open` allocates: `DAC_DMA_FIFO_SIZE * sizeof(SAMPLE)`. */
  const FIFO_BYTES: nat := 1024
  /** The handle value meaning "no block". */
  const INVALID_HANDLE: nat := 0
  /** The DMA interrupt vectors of the two channels (`DAC_DMA_VECTORS`). */
  const VECTOR0: nat := 58
  const VECTOR1: nat := 59

  // `DAC->CR` is a 32-bit register whose low half belongs to channel 0 and
  // high half to channel 1; it is kept as a number.

  /** `DAC_CR_ON << (16 * num)`: the channel enable bit. */
  function On(num: nat): u32 { if num == 0 then 0x0000_0001 else 0x0001_0000 }
  /** `DAC_CR_DMAEN1 << (16 * num)`: the channel's DMA enable bit. */
  function DmaEnable(num: nat): u32 { if num == 0 then 0x0000_1000 else 0x1000_0000 }

  /** `cr | bit` for a one-bit mask `bit`. */
  function SetBit(cr: u32, bit: u32): u32
    requires bit > 0
  {
    if cr / bit % 2 == 1 then cr else (cr + bit) % U32_MODULUS
  }

  /** `cr & ~(0xffff << (16 * num))`: clear the channel's half of the register. */
  function ClearHalf(cr: u32, num: nat): u32
  {
    if num == 0 then cr - cr % 0x10000 else cr % 0x10000
  }

  /** The channel's 16 bits of the register. */
  function Half(cr: u32, num: nat): nat
  {
    if num == 0 then cr % 0x10000 else cr / 0x10000
  }

  function Other(num: nat): nat { if num == 0 then 1 else 0 }

  datatype Mode = Level | Stream | Wave

  datatype Error =
    | InvalidParams
    | AlreadyConfigured
    | NotConfigured
    | InProgress
    | NotSupported
    | FileIoCancelled
    /** The error `block_open` left when it could not map the block. */
    | MapError(code: int)

  /** What a write completion reports: the bytes written, or an error. */
  datatype Status = Written(size: u32) | Failed(error: Error)

  /** The hardware and system effects of the driver, in the order it causes them. */
  datatype Event =
    | PinEnable(num: nat)
    | PinDisable(num: nat)
    | TimerOpen(num: nat)
    | TimerStart(num: nat, hz: u32)
    | TimerStop(num: nat)
    | DmaClock(on: bool)
    | IrqRegister(num: nat)
    | IrqUnregister(num: nat)
    | IrqDisable(num: nat)
    /** A store into the channel's data holding register. */
    | DataWrite(num: nat, value: int)
    /** `wave_gen` filling the fifo. */
    | WaveGen(num: nat, waveType: nat, amplitude: int)
    /** `fwrite_complete` / `fiwrite_complete` for `block` of `process`. */
    | Complete(process: nat, num: nat, block: nat, status: Status)

  /**
   * A channel record. `src` is the mapped data of the block being written and
   * `ptr` the offset the driver's source pointer has reached in it.
   */
  datatype ChannelView = ChannelView(
    active: bool,
    mode: Mode,
    fifo: Option<seq<byte>>,
    half: bool,
    cnt: int,
    block: nat,
    process: nat,
    size: u32,
    samplerate: u32,
    src: seq<byte>,
    ptr: nat)

  /** The driver's state: both channel records, `DAC->CR` and the DAC clock enable (`RCC_APB1ENR_DACEN`). */
  datatype DacView = DacView(ch0: ChannelView, ch1: ChannelView, cr: u32, clock: bool)
  {
    function Get(num: nat): ChannelView
      requires num < CHANNELS
    {
      if num == 0 then ch0 else ch1
    }

    function With(num: nat, c: ChannelView): (r: DacView)
      requires num < CHANNELS
      ensures r.Get(num) == c && r.Get(Other(num)) == Get(Other(num))
      ensures r.cr == cr && r.clock == clock
    {
      if num == 0 then this.(ch0 := c) else this.(ch1 := c)
    }
  }

  /** The effect of an operation on one channel. */
  datatype ChanStep = ChanStep(chan: ChannelView, events: seq<Event>)

  /** The effect of an operation on the driver, and the error it reports (`error(...)`), if any. */
  datatype Step = Step(after: DacView, events: seq<Event>, err: Option<Error>)

  /** The channel's fifo, where there is one, has the size `open` allocates. */
  ghost predicate FifoSized(c: ChannelView)
  {
    c.fifo.Some? ==> |c.fifo.value| == FIFO_BYTES
  }

  /** A channel opened for streaming or waves has a fifo. */
  ghost predicate ChanValid(c: ChannelView)
  {
    FifoSized(c) && (c.active && c.mode != Level ==> c.fifo.Some?)
  }

  ghost predicate ValidView(s: DacView)
  {
    ChanValid(s.ch0) && ChanValid(s.ch1)
  }

  /** Byte offset of half `half` of the fifo: `HALF_FIFO_BYTES * half`. */
  function HalfOffset(half: bool): nat
  {
    if half then HALF_FIFO_BYTES else 0
  }

  function Zeros(n: nat): (r: seq<byte>)
    ensures |r| == n && forall k :: 0 <= k < n ==> r[k] == 0
  {
    seq(n, _ => 0)
  }

  /**
   * The `n` bytes a `memcpy` from offset `from` of the mapped block reads.
   * Bytes past the end of the block are taken to be 0.
   */
  function Chunk(src: seq<byte>, from: nat, n: nat): (r: seq<byte>)
    ensures |r| == n
    ensures from + n <= |src| ==> r == src[from..from + n]
  {
    seq(n, k requires 0 <= k < n => if from + k < |src| then src[from + k] else 0)
  }

  // ---------------------------------------------------------------------------
  // open / close
  // ---------------------------------------------------------------------------

  /**
   * The channel record's part of `stm32_dac_open`, once `num` and `active`
   * have been checked. `allocOk` says whether `malloc` of the fifo succeeds;
   * a new fifo is taken to hold zeros.
   */
  function OpenChan(c: ChannelView, num: nat, mode: Mode, samplerate: u32, allocOk: bool): (r: ChanStep)
    requires FifoSized(c) && !c.active
    ensures ChanValid(r.chan)
  {
    if mode == Level then
      ChanStep(c.(mode := Level, active := true), [PinEnable(num), DataWrite(num, 0)])
    else if !allocOk then
      ChanStep(c.(fifo := None), [PinEnable(num)])
    else
      var c1 := c.(fifo := Some(Zeros(FIFO_BYTES)), samplerate := samplerate, mode := mode, active := true);
      ChanStep(if mode == Stream then c1.(block := INVALID_HANDLE, cnt := 0, half := false) else c1,
               [PinEnable(num), TimerOpen(num), DmaClock(true)] + (if mode == Stream then [IrqRegister(num)] else []))
  }

  /** `DAC->CR` after `stm32_dac_open` has got past its checks: it is cleared first, whatever the other channel was doing. */
  function OpenCr(num: nat, mode: Mode, allocOk: bool): (r: u32)
    ensures num < CHANNELS ==> Half(r, Other(num)) == 0
    ensures num < CHANNELS ==> Half(r, num) == (if mode == Level then 1 else if !allocOk then 0 else 0x1001)
  {
    assert SetBit(0, On(num)) == On(num);
    assert SetBit(SetBit(0, DmaEnable(num)), On(num)) == DmaEnable(num) + On(num) by {
      assert SetBit(0, DmaEnable(num)) == DmaEnable(num);
      assert DmaEnable(num) / On(num) % 2 == 0;
    }
    if mode == Level then SetBit(0, On(num))
    else if !allocOk then 0
    else SetBit(SetBit(0, DmaEnable(num)), On(num))
  }

  /** `stm32_dac_open`. */
  function OpenSpec(s: DacView, num: nat, mode: Mode, samplerate: u32, allocOk: bool): (r: Step)
    requires ValidView(s)
    ensures ValidView(r.after)
  {
    if num >= CHANNELS then Step(s, [], Some(InvalidParams))
    else if s.Get(num).active then Step(s, [], Some(AlreadyConfigured))
    else
      var st := OpenChan(s.Get(num), num, mode, samplerate, allocOk);
      Step(s.With(num, st.chan).(cr := OpenCr(num, mode, allocOk), clock := true), st.events, None)
  }

  /** `stm32_dac_flush` on one channel: stop the timer and cancel the block in flight. */
  function FlushChan(c: ChannelView, num: nat): (r: ChanStep)
    ensures r.chan.block == INVALID_HANDLE && r.chan.(block := c.block) == c
    ensures |r.events| == (if c.block != INVALID_HANDLE then 2 else 1) && r.events[0] == TimerStop(num)
    ensures c.block != INVALID_HANDLE ==> r.events[1] == Complete(c.process, num, c.block, Failed(FileIoCancelled))
  {
    ChanStep(c.(block := 0),
      [TimerStop(num)] + (if c.block != INVALID_HANDLE then [Complete(c.process, num, c.block, Failed(FileIoCancelled))] else []))
  }

  /** `stm32_dac_flush`. The source does not check `num`. */
  function FlushSpec(s: DacView, num: nat): (r: Step)
    requires num < CHANNELS && ValidView(s)
    ensures ValidView(r.after)
  {
    var st := FlushChan(s.Get(num), num);
    Step(s.With(num, st.chan), st.events, None)
  }

  /** The channel record's part of `stm32_dac_close`, once `num` and `active` have been checked. */
  function CloseChan(c: ChannelView, num: nat): (r: ChanStep)
    requires ChanValid(c)
    ensures ChanValid(r.chan)
  {
    var st := if c.mode == Stream then FlushChan(c, num) else ChanStep(c, []);
    var evStream := if c.mode == Stream then st.events + [IrqUnregister(num)] else [];
    var evDma := if c.mode != Level then evStream + [IrqDisable(num), DmaClock(false), TimerStop(num)] else [];
    ChanStep(st.chan.(active := false), evDma)
  }

  /** `stm32_dac_close`. */
  function CloseSpec(s: DacView, num: nat): (r: Step)
    requires ValidView(s)
    ensures ValidView(r.after)
  {
    if num >= CHANNELS then Step(s, [], Some(InvalidParams))
    else if !s.Get(num).active then Step(s, [], Some(NotConfigured))
    else
      var st := CloseChan(s.Get(num), num);
      var s1 := s.With(num, st.chan).(cr := ClearHalf(s.cr, num));
      var s2 := if !s1.ch0.active && !s1.ch1.active then s1.(clock := false) else s1;
      Step(s2, st.events + [PinDisable(num)], None)
  }

  // ---------------------------------------------------------------------------
  // write and the DMA interrupt
  // ---------------------------------------------------------------------------

  /** What `block_open` gives: the block's data, or the error it left. */
  datatype Mapping = Mapped(data: seq<byte>) | MapFailed(code: int)

  /** The priming `memcpy` of a write reads and writes the fifo only when the channel has fewer than two halves queued. */
  ghost predicate WriteCanRun(c: ChannelView, mapping: Mapping)
  {
    c.cnt < 2 && mapping.Mapped? ==> c.fifo.Some?
  }

  /** `cnt_left` after the priming copy, as the unsigned arithmetic of the source computes it. */
  function UnitsLeft(cnt: int, units: nat): (r: nat)
    ensures units < U32_MODULUS ==> r < U32_MODULUS
    ensures r <= units || (units == 0 && r == U32_MODULUS - 1)
  {
    if cnt == 0 && units >= 2 then units - 2
    else if cnt < 2 then (units - 1) % U32_MODULUS
    else units
  }

  /**
   * The priming copy of `stm32_dac_write` from the source pointer: both
   * fifo halves when the channel is idle and the block holds two halves, else
   * one half, into the half `half` designates, when fewer than two are queued.
   * Only the fifo and the source pointer change.
   */
  function Primed(c: ChannelView, units: nat): (r: ChannelView)
    requires FifoSized(c) && (c.cnt < 2 ==> c.fifo.Some?)
    ensures FifoSized(r) && r.fifo.Some? == c.fifo.Some?
    ensures r.(fifo := c.fifo, ptr := c.ptr) == c
    ensures c.cnt == 0 && units >= 2 ==>
      r.fifo == Some(Chunk(c.src, c.ptr, FIFO_BYTES)) && r.ptr == c.ptr + FIFO_BYTES
    ensures c.cnt < 2 && !(c.cnt == 0 && units >= 2) ==>
      var o, p := HalfOffset(c.half), HalfOffset(!c.half);
      && r.fifo.value[o..o + HALF_FIFO_BYTES] == Chunk(c.src, c.ptr, HALF_FIFO_BYTES)
      && r.fifo.value[p..p + HALF_FIFO_BYTES] == c.fifo.value[p..p + HALF_FIFO_BYTES]
      && r.ptr == c.ptr + HALF_FIFO_BYTES
    ensures c.cnt >= 2 ==> r == c
  {
    if c.cnt == 0 && units >= 2 then
      var f := Splice(c.fifo.value, 0, Chunk(c.src, c.ptr, FIFO_BYTES));
      assert f == f[0..FIFO_BYTES];
      c.(fifo := Some(f), ptr := c.ptr + FIFO_BYTES)
    else if c.cnt < 2 then
      c.(fifo := Some(Splice(c.fifo.value, HalfOffset(c.half), Chunk(c.src, c.ptr, HALF_FIFO_BYTES))),
         ptr := c.ptr + HALF_FIFO_BYTES)
    else c
  }

  /** `stm32_dac_write` on an open channel: admission, priming copy, completion and timer start. */
  function WriteChan(c: ChannelView, num: nat, block: nat, size: u32, process: nat, mapping: Mapping): (r: ChanStep)
    requires ChanValid(c) && WriteCanRun(c, mapping)
    ensures ChanValid(r.chan)
    ensures r.chan.active == c.active && r.chan.mode == c.mode && r.chan.samplerate == c.samplerate
    ensures r.chan.fifo.Some? == c.fifo.Some?
  {
    if c.cnt > 2 then ChanStep(c, [Complete(process, num, block, Failed(InProgress))])
    else if mapping.MapFailed? then
      ChanStep(c.(src := [], ptr := 0), [Complete(process, num, block, Failed(MapError(mapping.code)))])
    else StartChan(c, num, block, size, process, mapping.data)
  }

  /** A write that has been admitted and whose block is mapped to `data`. */
  function StartChan(c: ChannelView, num: nat, block: nat, size: u32, process: nat, data: seq<byte>): (r: ChanStep)
    requires ChanValid(c) && c.cnt <= 2 && (c.cnt < 2 ==> c.fifo.Some?)
    ensures ChanValid(r.chan)
    ensures r.chan.active == c.active && r.chan.mode == c.mode && r.chan.samplerate == c.samplerate
    ensures r.chan.fifo.Some? == c.fifo.Some?
  {
    var units := size / HALF_FIFO_BYTES;
    var primed := Primed(c.(block := block, process := process, size := size, src := data, ptr := 0), units);
    ChanStep(primed.(cnt := c.cnt + units),
      (if UnitsLeft(c.cnt, units) == 0 then [Complete(process, num, block, Written(size))] else [])
      + (if c.cnt == 0 then [TimerStart(num, c.samplerate)] else []))
  }

  /** What a write needs of the driver's state for the modelled code to be defined. */
  ghost predicate WriteAllowed(s: DacView, num: nat, mapping: Mapping)
  {
    num < CHANNELS && s.Get(num).active ==> WriteCanRun(s.Get(num), mapping)
  }

  /** `stm32_dac_write`: every outcome is reported through a completion, never through `error`. */
  function WriteSpec(s: DacView, num: nat, block: nat, size: u32, process: nat, mapping: Mapping): (r: Step)
    requires ValidView(s) && WriteAllowed(s, num, mapping)
    ensures ValidView(r.after) && r.err == None
  {
    if num >= CHANNELS then Step(s, [Complete(process, num, block, Failed(InvalidParams))], None)
    else if !s.Get(num).active then Step(s, [Complete(process, num, block, Failed(NotConfigured))], None)
    else
      var st := WriteChan(s.Get(num), num, block, size, process, mapping);
      Step(s.With(num, st.chan), st.events, None)
  }

  /** `stm32_dac_dma_isr` on channel `num`: toggle the half, count it, refill or complete, stop on underflow. */
  function IsrChan(c: ChannelView, num: nat): (r: ChanStep)
    requires FifoSized(c) && c.fifo.Some?
    ensures FifoSized(r.chan) && r.chan.fifo.Some?
    ensures r.chan.active == c.active && r.chan.mode == c.mode && r.chan.samplerate == c.samplerate
  {
    var half := !c.half;
    var cnt := c.cnt - 1;
    var c1 := c.(half := half, cnt := cnt);
    var c2 :=
      if c.block == INVALID_HANDLE then c1
      else if cnt >= 2 then
        c1.(fifo := Some(Splice(c.fifo.value, HalfOffset(half), Chunk(c.src, c.ptr, HALF_FIFO_BYTES))),
            ptr := c.ptr + HALF_FIFO_BYTES)
      else c1.(block := INVALID_HANDLE);
    var done := if c.block != INVALID_HANDLE && cnt < 2 then [Complete(c.process, num, c.block, Written(c.size))] else [];
    if cnt <= 0 then ChanStep(c2.(half := false), done + [TimerStop(num)])
    else ChanStep(c2, done)
  }

  /** The channel an interrupt vector belongs to. */
  function IsrNum(vector: nat): (num: nat)
    ensures num < CHANNELS && (vector == VECTOR0 <==> num == 0)
  {
    if vector == VECTOR0 then 0 else 1
  }

  /** The interrupt is registered only while its channel is open for streaming. */
  ghost predicate IsrArmed(s: DacView, vector: nat)
  {
    s.Get(IsrNum(vector)).active && s.Get(IsrNum(vector)).mode == Stream
  }

  function IsrSpec(s: DacView, vector: nat): (r: Step)
    requires ValidView(s) && IsrArmed(s, vector)
    ensures ValidView(r.after) && IsrArmed(r.after, vector)
  {
    var num := IsrNum(vector);
    var st := IsrChan(s.Get(num), num);
    Step(s.With(num, st.chan), st.events, None)
  }

  // ---------------------------------------------------------------------------
  // level and wave
  // ---------------------------------------------------------------------------

  /** `stm32_dac_set_level`: the value requested is not used; 0 is stored. */
  function SetLevelSpec(s: DacView, num: nat, value: int): (r: Step)
    ensures r.after == s
  {
    if num >= CHANNELS then Step(s, [], Some(InvalidParams))
    else if !s.Get(num).active then Step(s, [], Some(NotConfigured))
    else Step(s, [DataWrite(num, 0)], None)
  }

  /** What a wave request needs of the driver's state: `wave_gen` writes into the fifo. */
  ghost predicate WaveAllowed(s: DacView, num: nat, amplitude: int, generated: seq<byte>)
  {
    && |generated| == FIFO_BYTES
    && (num < CHANNELS && s.Get(num).active && amplitude != 0 ==> s.Get(num).fifo.Some?)
  }

  /**
   * `stm32_dac_wave`. `generated` is what `wave_gen` writes into the fifo; the
   * timer is restarted at `samplerate * DAC_DMA_FIFO_SIZE` (32-bit product).
   */
  function WaveSpec(s: DacView, num: nat, waveType: nat, amplitude: int, generated: seq<byte>): (r: Step)
    requires ValidView(s) && WaveAllowed(s, num, amplitude, generated)
    ensures ValidView(r.after)
  {
    if num >= CHANNELS then Step(s, [], Some(InvalidParams))
    else if !s.Get(num).active then Step(s, [], Some(NotConfigured))
    else if amplitude == 0 then Step(s, [TimerStop(num)], None)
    else
      var c := s.Get(num);
      Step(s.With(num, c.(fifo := Some(generated))),
           [TimerStop(num), WaveGen(num, waveType, amplitude),
            TimerStart(num, (c.samplerate * DMA_FIFO_SIZE) % U32_MODULUS)],
           None)
  }

  // ---------------------------------------------------------------------------
  // request dispatcher and init
  // ---------------------------------------------------------------------------

  /** The IPC requests `stm32_dac_request` handles, with the channel already decoded from the handle. */
  datatype Request =
    | OpenReq(num: nat, mode: Mode, samplerate: u32)
    | CloseReq(num: nat)
    | SetReq(num: nat, value: int)
    | WaveReq(num: nat, waveType: nat, amplitude: int)
    | FlushReq(num: nat)
    | WriteReq(num: nat, block: nat, size: u32, process: nat)
    | OtherReq(cmd: nat)

  /** The results of the code outside the driver a request may call: `malloc`, `block_open`, `wave_gen`. */
  datatype Env = Env(allocOk: bool, mapping: Mapping, generated: seq<byte>)

  ghost predicate RequestAllowed(s: DacView, req: Request, env: Env)
  {
    match req
    case FlushReq(num) => num < CHANNELS
    case WriteReq(num, _, _, _) => WriteAllowed(s, num, env.mapping)
    case WaveReq(num, _, amplitude) => WaveAllowed(s, num, amplitude, env.generated)
    case _ => true
  }

  /** `stm32_dac_request`: the step taken and whether a reply is posted. */
  function RequestSpec(s: DacView, req: Request, env: Env): (r: (Step, bool))
    requires ValidView(s) && RequestAllowed(s, req, env)
    ensures ValidView(r.0.after)
  {
    match req
    case OpenReq(num, mode, samplerate) => (OpenSpec(s, num, mode, samplerate, env.allocOk), true)
    case CloseReq(num) => (CloseSpec(s, num), true)
    case SetReq(num, value) => (SetLevelSpec(s, num, value), true)
    case WaveReq(num, waveType, amplitude) => (WaveSpec(s, num, waveType, amplitude, env.generated), true)
    case FlushReq(num) => (FlushSpec(s, num), true)
    case WriteReq(num, block, size, process) => (WriteSpec(s, num, block, size, process, env.mapping), false)
    case OtherReq(_) => (Step(s, [], Some(NotSupported)), true)
  }

  /** `stm32_dac_init`: no channel has a fifo and none is open. */
  function InitSpec(s: DacView): (r: DacView)
    ensures ValidView(r)
    ensures forall num :: 0 <= num < CHANNELS ==> !r.Get(num).active && r.Get(num).fifo == None
  {
    s.(ch0 := s.ch0.(fifo := None, active := false), ch1 := s.ch1.(fifo := None, active := false))
  }
}
