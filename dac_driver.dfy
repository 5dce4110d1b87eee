/**
 * The DAC driver as it runs: a record per channel, updated in place, and the
 * driver object that owns both records, `DAC->CR` and the clock enable. Every
 * method is proved to do what the matching transition of `DacSpec` says, and
 * to record the effects it causes in the ghost log `events`.
 */
module DacDriver {
  import opened Common
  import opened DacSpec

  /** One channel record of the driver (`core->dac.Chan(num)`). */
  class Channel {
    var active: bool
    var mode: Mode
    var fifo: array?<byte>
    var half: bool
    var cnt: int
    var block: nat
    var process: nat
    var size: u32
    var samplerate: u32
    /** The data of the mapped block; `ptr` is the source pointer's offset in it. */
    var src: seq<byte>
    var ptr: nat

    ghost function View(): ChannelView
      reads this, fifo
    {
      ChannelView(active, mode, if fifo == null then None else Some(fifo[..]),
                  half, cnt, block, process, size, samplerate, src, ptr)
    }

    /** A record as static storage starts: all fields zero. */
    constructor ()
      ensures View() == ChannelView(false, Level, None, false, 0, 0, 0, 0, 0, [], 0)
    {
      active, mode, fifo, half, cnt := false, Level, null, false, 0;
      block, process, size, samplerate, src, ptr := 0, 0, 0, 0, [], 0;
    }

    /** `memcpy(fifo + at, ptr, n)`: copy `n` bytes from the source pointer into the fifo. */
    method CopyIn(at: nat, n: nat)
      requires fifo != null && at + n <= fifo.Length
      modifies fifo
      ensures fifo[..] == Splice(old(fifo[..]), at, Chunk(src, ptr, n))
    {
      ghost var chunk := Chunk(src, ptr, n);
      for k := 0 to n
        invariant forall j :: at <= j < at + k ==> fifo[j] == chunk[j - at]
        invariant forall j :: 0 <= j < fifo.Length && !(at <= j < at + k) ==> fifo[j] == old(fifo[j])
      {
        fifo[at + k] := if ptr + k < |src| then src[ptr + k] else 0;
      }
      assert fifo[..] == Splice(old(fifo[..]), at, chunk);
    }

    /** The critical section of `stm32_dac_flush`, with the timer stop before it and the cancellation after it. */
    method Flush(num: nat) returns (ghost ev: seq<Event>)
      modifies this
      ensures fifo == old(fifo)
      ensures View() == FlushChan(old(View()), num).chan && ev == FlushChan(old(View()), num).events
    {
      ev := [TimerStop(num)];
      var inFlight := block;
      block := INVALID_HANDLE;
      block := 0;
      if inFlight != INVALID_HANDLE {
        ev := ev + [Complete(process, num, inFlight, Failed(FileIoCancelled))];
      }
    }

    /** The record's part of `stm32_dac_open`: allocate and set up the fifo for a streaming or wave channel. */
    method Open(num: nat, mode: Mode, samplerate: u32, allocOk: bool) returns (ghost ev: seq<Event>)
      requires FifoSized(View()) && !active
      modifies this
      ensures fifo == old(fifo) || fifo == null || fresh(fifo)
      ensures View() == OpenChan(old(View()), num, mode, samplerate, allocOk).chan
      ensures ev == OpenChan(old(View()), num, mode, samplerate, allocOk).events
    {
      ev := [PinEnable(num)];
      if mode != Level {
        if !allocOk {
          fifo := null;
          return;
        }
        fifo := new byte[FIFO_BYTES](_ => 0);
        this.samplerate := samplerate;
        ev := ev + [TimerOpen(num), DmaClock(true)];
        if mode != Mode.Wave {
          ev := ev + [IrqRegister(num)];
          block := INVALID_HANDLE;
          cnt := 0;
          half := false;
        }
        assert fifo[..] == Zeros(FIFO_BYTES);
      }
      if mode == Level {
        ev := ev + [DataWrite(num, 0)];
      }
      this.mode := mode;
      active := true;
    }

    /** The record's part of `stm32_dac_close`: flush a streaming channel and release its DMA, then mark it closed. */
    method Close(num: nat) returns (ghost ev: seq<Event>)
      requires ChanValid(View())
      modifies this
      ensures fifo == old(fifo)
      ensures View() == CloseChan(old(View()), num).chan && ev == CloseChan(old(View()), num).events
    {
      ev := [];
      if mode != Level {
        if mode != Mode.Wave {
          ev := Flush(num);
          ev := ev + [IrqUnregister(num)];
        }
        ev := ev + [IrqDisable(num), DmaClock(false), TimerStop(num)];
      }
      active := false;
    }

    /** The priming copy of `stm32_dac_write`; `left` is `cnt_left` after it. */
    method Prime(units: nat) returns (left: nat)
      requires FifoSized(View()) && (cnt < 2 ==> fifo != null)
      modifies this`ptr, fifo
      ensures View() == Primed(old(View()), units) && left == UnitsLeft(cnt, units)
    {
      left := units;
      if cnt == 0 && units >= 2 {
        CopyIn(0, HALF_FIFO_BYTES * 2);
        ptr := ptr + HALF_FIFO_BYTES * 2;
        left := left - 2;
      } else if cnt < 2 {
        CopyIn(HalfOffset(half), HALF_FIFO_BYTES);
        ptr := ptr + HALF_FIFO_BYTES;
        left := (left - 1) % U32_MODULUS;
      }
    }

    /** The body of `stm32_dac_write` once `num` and `active` have been checked. */
    method Write(num: nat, block: nat, size: u32, process: nat, mapping: Mapping) returns (ghost ev: seq<Event>)
      requires ChanValid(View()) && WriteCanRun(View(), mapping)
      modifies this, fifo
      ensures fifo == old(fifo)
      ensures View() == WriteChan(old(View()), num, block, size, process, mapping).chan
      ensures ev == WriteChan(old(View()), num, block, size, process, mapping).events
    {
      if cnt > 2 {
        return [Complete(process, num, block, Failed(InProgress))];
      }
      if mapping.MapFailed? {
        src, ptr := [], 0;
        return [Complete(process, num, block, Failed(MapError(mapping.code)))];
      }
      ev := Start(num, block, size, process, mapping.data);
    }

    /** Record the admitted block and point the source at its first byte. */
    method Load(block: nat, size: u32, process: nat, data: seq<byte>)
      modifies this`block, this`process, this`size, this`src, this`ptr
      ensures View() == old(View()).(block := block, process := process, size := size, src := data, ptr := 0)
    {
      src, ptr := data, 0;
      this.block := block;
      this.process := process;
      this.size := size;
    }

    /** `stm32_dac_write` once the block is admitted and mapped to `data`. */
    method Start(num: nat, block: nat, size: u32, process: nat, data: seq<byte>) returns (ghost ev: seq<Event>)
      requires ChanValid(View()) && cnt <= 2 && (cnt < 2 ==> fifo != null)
      modifies this, fifo
      ensures fifo == old(fifo)
      ensures View() == StartChan(old(View()), num, block, size, process, data).chan
      ensures ev == StartChan(old(View()), num, block, size, process, data).events
    {
      Load(block, size, process, data);
      var units := size / HALF_FIFO_BYTES;
      ghost var v0 := View();
      var left := Prime(units);
      ghost var v1 := View();
      assert v1 == Primed(v0, units);
      ev := [];
      if left == 0 {
        ev := [Complete(process, num, block, Written(size))];
      }
      var needStart := cnt == 0;
      cnt := cnt + units;
      if needStart {
        ev := ev + [TimerStart(num, samplerate)];
      }
    }

    /** The body of `stm32_dac_dma_isr` for this channel. */
    method Isr(num: nat) returns (ghost ev: seq<Event>)
      requires fifo != null && FifoSized(View())
      modifies this, fifo
      ensures fifo == old(fifo)
      ensures View() == IsrChan(old(View()), num).chan && ev == IsrChan(old(View()), num).events
    {
      half := !half;
      cnt := cnt - 1;
      ev := [];
      if block != INVALID_HANDLE {
        if cnt >= 2 {
          CopyIn(HalfOffset(half), HALF_FIFO_BYTES);
          ptr := ptr + HALF_FIFO_BYTES;
        } else {
          ev := [Complete(process, num, block, Written(size))];
          block := INVALID_HANDLE;
        }
      }
      if cnt <= 0 {
        half := false;
        ev := ev + [TimerStop(num)];
      }
    }

    /** `wave_gen(fifo, DAC_DMA_FIFO_SIZE, ...)`, whose output is given as `generated`. */
    method Fill(generated: seq<byte>)
      requires fifo != null && |generated| == fifo.Length
      modifies fifo
      ensures fifo[..] == generated
    {
      for k := 0 to fifo.Length
        invariant forall j :: 0 <= j < k ==> fifo[j] == generated[j]
      {
        fifo[k] := generated[k];
      }
    }
  }

  /** The driver's part of the core: both channel records, `DAC->CR` and the DAC clock enable. */
  class Dac {
    /** The records of `core->dac.channels`, which sit at fixed places. */
    const ch0: Channel
    const ch1: Channel
    var cr: u32
    var clock: bool
    /** The effects caused so far, oldest first. */
    ghost var events: seq<Event>

    /** `&core->dac.channels[num]`, for a channel number below `CHANNELS`. */
    function Chan(num: nat): Channel
    {
      if num == 0 then ch0 else ch1
    }

    /** The objects are laid out as the driver needs: two distinct records, each with its own fifo. */
    ghost predicate Wf()
      reads this, ch0, ch1
    {
      ch0 != ch1 && (ch0.fifo != null ==> ch0.fifo != ch1.fifo)
    }

    ghost function View(): DacView
      reads this, ch0, ch1, ch0.fifo, ch1.fifo
    {
      DacView(ch0.View(), ch1.View(), cr, clock)
    }

    ghost predicate Valid()
      reads this, ch0, ch1, ch0.fifo, ch1.fifo
    {
      Wf() && ValidView(View())
    }

    constructor ()
      ensures Valid() && fresh(ch0) && fresh(ch1) && events == []
      ensures View() == DacView(Blank(), Blank(), 0, false)
    {
      var c0 := new Channel();
      var c1 := new Channel();
      ch0, ch1 := c0, c1;
      cr, clock := 0, false;
      events := [];
    }

    static ghost function Blank(): ChannelView
    {
      ChannelView(false, Level, None, false, 0, 0, 0, 0, 0, [], 0)
    }

    /** `stm32_dac_init`: drop any fifo and close every channel. */
    method Init()
      requires Wf()
      modifies ch0, ch1
      ensures Valid() && events == old(events)
      ensures View() == InitSpec(old(View()))
    {
      for i := 0 to CHANNELS
        invariant Wf() && cr == old(cr) && clock == old(clock) && events == old(events)
        invariant forall j :: i <= j < CHANNELS ==> Chan(j).View() == old(Chan(j).View())
        invariant forall j :: 0 <= j < i ==>
          Chan(j).View() == old(Chan(j).View()).(fifo := None, active := false)
      {
        Chan(i).fifo := null;
        Chan(i).active := false;
      }
      assert Chan(0).View() == old(Chan(0).View()).(fifo := None, active := false);
      assert Chan(1).View() == old(Chan(1).View()).(fifo := None, active := false);
    }

    /** `stm32_dac_open`. */
    method Open(num: nat, mode: Mode, samplerate: u32, allocOk: bool) returns (err: Option<Error>)
      requires Valid()
      modifies this, ch0, ch1
      ensures Valid()
      ensures var st := OpenSpec(old(View()), num, mode, samplerate, allocOk);
        View() == st.after && events == old(events) + st.events && err == st.err
    {
      if num >= CHANNELS {
        return Some(InvalidParams);
      }
      if Chan(num).active {
        return Some(AlreadyConfigured);
      }
      Configure(num, mode, samplerate, allocOk);
      err := None;
    }

    /** `stm32_dac_open` past its checks: enable the clock and the channel, with a fifo unless it is a level channel. */
    method Configure(num: nat, mode: Mode, samplerate: u32, allocOk: bool)
      requires Valid() && num < CHANNELS && !View().Get(num).active
      modifies this, ch0, ch1
      ensures Valid()
      ensures var st := OpenChan(old(View()).Get(num), num, mode, samplerate, allocOk);
        && View() == old(View()).With(num, st.chan).(cr := OpenCr(num, mode, allocOk), clock := true)
        && events == old(events) + st.events
    {
      // The register is cleared, then given the channel's bits once the channel is set up;
      // nothing in between reads it, so the value is worked out first and stored once.
      var bits: u32 := 0;
      if mode == Level || allocOk {
        if mode != Level {
          bits := SetBit(bits, DmaEnable(num));
        }
        bits := SetBit(bits, On(num));
      }
      assert bits == OpenCr(num, mode, allocOk);
      clock := true;
      cr := bits;
      OpenRecord(num, mode, samplerate, allocOk);
    }

    /** The channel record's part of `stm32_dac_open`. */
    method OpenRecord(num: nat, mode: Mode, samplerate: u32, allocOk: bool)
      requires Valid() && num < CHANNELS && !View().Get(num).active
      modifies this`events, Chan(num)
      ensures Valid()
      ensures var st := OpenChan(old(View()).Get(num), num, mode, samplerate, allocOk);
        && View() == old(View()).With(num, st.chan)
        && events == old(events) + st.events
    {
      var c := Chan(num);
      ghost var s := View();
      ghost var other := Chan(Other(num));
      ghost var st := OpenChan(s.Get(num), num, mode, samplerate, allocOk);
      assert c != other && c.View() == s.Get(num) && other.View() == s.Get(Other(num));
      var ev := c.Open(num, mode, samplerate, allocOk);
      assert other.View() == s.Get(Other(num));
      if num == 0 {
        assert View() == DacView(st.chan, s.ch1, s.cr, s.clock);
      } else {
        assert View() == DacView(s.ch0, st.chan, s.cr, s.clock);
      }
      events := events + ev;
    }

    /** `stm32_dac_flush`. */
    method Flush(num: nat)
      requires Valid() && num < CHANNELS
      modifies this`events, Chan(num)
      ensures Valid()
      ensures var st := FlushSpec(old(View()), num); View() == st.after && events == old(events) + st.events
    {
      var c := Chan(num);
      ghost var s := View();
      ghost var other := Chan(Other(num));
      assert c != other && c.View() == s.Get(num) && other.View() == s.Get(Other(num));
      var ev := c.Flush(num);
      assert other.View() == s.Get(Other(num));
      if num == 0 {
        assert View() == DacView(c.View(), s.ch1, s.cr, s.clock);
      } else {
        assert View() == DacView(s.ch0, c.View(), s.cr, s.clock);
      }
      events := events + ev;
    }

    /** `stm32_dac_close`. */
    method Close(num: nat) returns (err: Option<Error>)
      requires Valid()
      modifies this, ch0, ch1
      ensures Valid()
      ensures var st := CloseSpec(old(View()), num);
        View() == st.after && events == old(events) + st.events && err == st.err
    {
      if num >= CHANNELS {
        return Some(InvalidParams);
      }
      if !Chan(num).active {
        return Some(NotConfigured);
      }
      Shutdown(num);
      err := None;
    }

    /** `stm32_dac_close` past its checks: release the channel, its half of `DAC->CR` and, if it was the last one, the clock. */
    method Shutdown(num: nat)
      requires Valid() && num < CHANNELS && View().Get(num).active
      modifies this, Chan(num)
      ensures Valid()
      ensures var st := CloseChan(old(View()).Get(num), num);
        var s1 := old(View()).With(num, st.chan).(cr := ClearHalf(old(cr), num));
        && View() == (if !s1.ch0.active && !s1.ch1.active then s1.(clock := false) else s1)
        && events == old(events) + st.events + [PinDisable(num)]
    {
      var c := Chan(num);
      ghost var s := View();
      ghost var other := Chan(Other(num));
      assert c != other && c.View() == s.Get(num) && other.View() == s.Get(Other(num));
      var ev := c.Close(num);
      assert other.View() == s.Get(Other(num));
      ghost var s1 := s.With(num, c.View());
      if num == 0 {
        assert View() == DacView(c.View(), s.ch1, s.cr, s.clock);
      } else {
        assert View() == DacView(s.ch0, c.View(), s.cr, s.clock);
      }
      assert View() == s1;
      cr := ClearHalf(cr, num);
      assert View() == s1.(cr := cr);
      if !ch0.active && !ch1.active {
        clock := false;
      }
      events := events + ev + [PinDisable(num)];
    }

    /** `stm32_dac_write`: the block's mapping is what `block_open` returns. */
    method Write(num: nat, block: nat, size: u32, process: nat, mapping: Mapping)
      requires Valid() && WriteAllowed(View(), num, mapping)
      modifies this, ch0, ch1, ch0.fifo, ch1.fifo
      ensures Valid()
      ensures var st := WriteSpec(old(View()), num, block, size, process, mapping);
        View() == st.after && events == old(events) + st.events
    {
      if num >= CHANNELS {
        events := events + [Complete(process, num, block, Failed(InvalidParams))];
        return;
      }
      var c := Chan(num);
      if !c.active {
        events := events + [Complete(process, num, block, Failed(NotConfigured))];
        return;
      }
      ghost var s := View();
      ghost var other := Chan(Other(num));
      assert c != other && c.View() == s.Get(num) && other.View() == s.Get(Other(num));
      ghost var st := WriteChan(s.Get(num), num, block, size, process, mapping);
      assert WriteSpec(s, num, block, size, process, mapping) == Step(s.With(num, st.chan), st.events, None);
      var ev := c.Write(num, block, size, process, mapping);
      assert other.View() == s.Get(Other(num)) && c.View() == st.chan;
      if num == 0 {
        assert View() == DacView(st.chan, s.ch1, s.cr, s.clock);
      } else {
        assert View() == DacView(s.ch0, st.chan, s.cr, s.clock);
      }
      events := events + ev;
    }

    /** `stm32_dac_dma_isr` for interrupt `vector`. */
    method Isr(vector: nat)
      requires Valid() && IsrArmed(View(), vector)
      modifies this, ch0, ch1, ch0.fifo, ch1.fifo
      ensures Valid()
      ensures var st := IsrSpec(old(View()), vector); View() == st.after && events == old(events) + st.events
    {
      var num := if vector == VECTOR0 then 0 else 1;
      var c := Chan(num);
      ghost var s := View();
      ghost var other := Chan(Other(num));
      assert c != other && c.View() == s.Get(num) && other.View() == s.Get(Other(num));
      var ev := c.Isr(num);
      assert other.View() == s.Get(Other(num));
      if num == 0 {
        assert View() == DacView(c.View(), s.ch1, s.cr, s.clock);
      } else {
        assert View() == DacView(s.ch0, c.View(), s.cr, s.clock);
      }
      events := events + ev;
    }

    /** `stm32_dac_set_level`. */
    method SetLevel(num: nat, value: int) returns (err: Option<Error>)
      requires Valid()
      modifies this
      ensures Valid()
      ensures var st := SetLevelSpec(old(View()), num, value);
        View() == st.after && events == old(events) + st.events && err == st.err
    {
      if num >= CHANNELS {
        return Some(InvalidParams);
      }
      if !Chan(num).active {
        return Some(NotConfigured);
      }
      events := events + [DataWrite(num, 0)];
      err := None;
    }

    /** `stm32_dac_wave`: `generated` is what `wave_gen` produces. */
    method Wave(num: nat, waveType: nat, amplitude: int, generated: seq<byte>) returns (err: Option<Error>)
      requires Valid() && WaveAllowed(View(), num, amplitude, generated)
      modifies this, ch0, ch1, ch0.fifo, ch1.fifo
      ensures Valid()
      ensures var st := WaveSpec(old(View()), num, waveType, amplitude, generated);
        View() == st.after && events == old(events) + st.events && err == st.err
    {
      if num >= CHANNELS {
        return Some(InvalidParams);
      }
      var c := Chan(num);
      if !c.active {
        return Some(NotConfigured);
      }
      events := events + [TimerStop(num)];
      if amplitude != 0 {
        c.Fill(generated);
        events := events + [WaveGen(num, waveType, amplitude),
                            TimerStart(num, (c.samplerate * DMA_FIFO_SIZE) % U32_MODULUS)];
      }
      err := None;
    }

    /** `stm32_dac_request`: dispatch one IPC request; `needPost` says whether a reply is posted. */
    method Request(req: Request, env: Env) returns (needPost: bool, err: Option<Error>)
      requires Valid() && RequestAllowed(View(), req, env)
      modifies this, ch0, ch1, ch0.fifo, ch1.fifo
      ensures Valid()
      ensures var r := RequestSpec(old(View()), req, env);
        View() == r.0.after && events == old(events) + r.0.events && err == r.0.err && needPost == r.1
    {
      err := None;
      match req {
        case OpenReq(num, mode, samplerate) =>
          err := Open(num, mode, samplerate, env.allocOk);
          needPost := true;
        case CloseReq(num) =>
          err := Close(num);
          needPost := true;
        case SetReq(num, value) =>
          err := SetLevel(num, value);
          needPost := true;
        case WaveReq(num, waveType, amplitude) =>
          err := Wave(num, waveType, amplitude, env.generated);
          needPost := true;
        case FlushReq(num) =>
          Flush(num);
          needPost := true;
        case WriteReq(num, block, size, process) =>
          Write(num, block, size, process, env.mapping);
          needPost := false;
        case OtherReq(_) =>
          err := Some(NotSupported);
          needPost := true;
      }
    }
  }
}
