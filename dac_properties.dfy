/**
 * What the DAC driver's transitions guarantee, and where its streaming
 * bookkeeping behaves surprisingly: the rejections of each request, what an
 * open, a close, a write, an interrupt, a flush and a wave request do to a
 * channel, and how many completions a block gets over a run of interrupts.
 */
module DacProperties {
  import opened Common
  import opened DacSpec

  // ---------------------------------------------------------------------------
  // Counting completions over runs of interrupts
  // ---------------------------------------------------------------------------

  /** The number of completions (`fwrite_complete` / `fiwrite_complete`) in `ev`. */
  function Completions(ev: seq<Event>): nat
  {
    if ev == [] then 0 else (if ev[0].Complete? then 1 else 0) + Completions(ev[1..])
  }

  lemma {:induction false} CompletionsAppend(a: seq<Event>, b: seq<Event>)
    ensures Completions(a + b) == Completions(a) + Completions(b)
  {
    if a == [] {
      assert a + b == b;
    } else {
      assert (a + b)[0] == a[0];
      assert (a + b)[1..] == a[1..] + b;
      CompletionsAppend(a[1..], b);
    }
  }

  /** A completion is counted exactly when one is present. */
  lemma {:induction false} CompletionsZero(ev: seq<Event>)
    ensures Completions(ev) == 0 <==> forall k :: 0 <= k < |ev| ==> !ev[k].Complete?
  {
    if ev != [] {
      CompletionsZero(ev[1..]);
      assert forall k :: 1 <= k < |ev| ==> ev[k] == ev[1..][k - 1];
    }
  }

  /** `m` DMA half-transfer interrupts on channel `num`, one after the other. */
  function IsrRun(c: ChannelView, num: nat, m: nat): (r: ChanStep)
    requires FifoSized(c) && c.fifo.Some?
    ensures FifoSized(r.chan) && r.chan.fifo.Some?
    decreases m
  {
    if m == 0 then ChanStep(c, [])
    else
      var st := IsrChan(c, num);
      var rest := IsrRun(st.chan, num, m - 1);
      ChanStep(rest.chan, st.events + rest.events)
  }

  // ---------------------------------------------------------------------------
  // open
  // ---------------------------------------------------------------------------

  /** Open rejects a bad channel number and an open channel, and then changes nothing. */
  lemma OpenRejections(s: DacView, num: nat, mode: Mode, samplerate: u32, allocOk: bool)
    requires ValidView(s)
    ensures var r := OpenSpec(s, num, mode, samplerate, allocOk);
      && (num >= CHANNELS ==> r == Step(s, [], Some(InvalidParams)))
      && (num < CHANNELS && s.Get(num).active ==> r == Step(s, [], Some(AlreadyConfigured)))
      && (r.err == None <==> num < CHANNELS && !s.Get(num).active)
  {
  }

  /** A stream open that gets its fifo resets the streaming bookkeeping and enables the channel and its DMA. */
  lemma StreamOpenResets(s: DacView, num: nat, samplerate: u32)
    requires ValidView(s) && num < CHANNELS && !s.Get(num).active
    ensures var r := OpenSpec(s, num, Stream, samplerate, true);
      var c := r.after.Get(num);
      && r.err == None
      && c.active && c.mode == Stream && c.samplerate == samplerate
      && c.block == INVALID_HANDLE && c.cnt == 0 && !c.half
      && c.fifo == Some(Zeros(FIFO_BYTES))
      && r.after.Get(Other(num)) == s.Get(Other(num))
      && r.after.clock
      && Half(r.after.cr, num) == 0x1001
      && r.events == [PinEnable(num), TimerOpen(num), DmaClock(true), IrqRegister(num)]
  {
  }

  /** When the fifo cannot be allocated the channel stays closed, without an error, with `DAC->CR` cleared. */
  lemma OpenAllocFailure(s: DacView, num: nat, mode: Mode, samplerate: u32)
    requires ValidView(s) && num < CHANNELS && !s.Get(num).active && mode != Level
    ensures var r := OpenSpec(s, num, mode, samplerate, false);
      && r.err == None
      && !r.after.Get(num).active && r.after.Get(num).fifo == None
      && r.after.cr == 0 && r.after.clock
      && r.events == [PinEnable(num)]
  {
  }

  /**
   * Open clears the whole register first, so the other channel's half is
   * zero afterwards even if that channel is still open.
   */
  lemma OpenClearsOtherChannelBits(s: DacView, num: nat, mode: Mode, samplerate: u32, allocOk: bool)
    requires ValidView(s) && num < CHANNELS && !s.Get(num).active
    ensures var r := OpenSpec(s, num, mode, samplerate, allocOk);
      && Half(r.after.cr, Other(num)) == 0
      && r.after.Get(Other(num)).active == s.Get(Other(num)).active
  {
    var cr := OpenSpec(s, num, mode, samplerate, allocOk).after.cr;
    assert cr == OpenCr(num, mode, allocOk);
    if num == 0 {
      assert cr < 0x10000;
    } else {
      assert cr % 0x10000 == 0;
    }
  }

  // ---------------------------------------------------------------------------
  // close
  // ---------------------------------------------------------------------------

  /** Close rejects a bad channel number and a closed channel, and then changes nothing. */
  lemma CloseRejections(s: DacView, num: nat)
    requires ValidView(s)
    ensures var r := CloseSpec(s, num);
      && (num >= CHANNELS ==> r == Step(s, [], Some(InvalidParams)))
      && (num < CHANNELS && !s.Get(num).active ==> r == Step(s, [], Some(NotConfigured)))
      && (r.err == None <==> num < CHANNELS && s.Get(num).active)
  {
  }

  /** Clearing a channel's half of `DAC->CR` zeroes exactly those 16 bits. */
  lemma ClearHalfClearsExactly(cr: u32, num: nat)
    requires num < CHANNELS
    ensures Half(ClearHalf(cr, num), num) == 0
    ensures Half(ClearHalf(cr, num), Other(num)) == Half(cr, Other(num))
  {
    if num == 0 {
      var q := cr / 0x10000;
      assert cr - cr % 0x10000 == q * 0x10000;
    }
  }

  /**
   * A close of an open channel marks it closed, clears exactly its 16 bits of
   * `DAC->CR`, leaves the other channel alone, and turns the clock off exactly
   * when the other channel is closed too.
   */
  lemma CloseReleasesChannel(s: DacView, num: nat)
    requires ValidView(s) && num < CHANNELS && s.Get(num).active
    ensures var r := CloseSpec(s, num);
      && r.err == None
      && !r.after.Get(num).active
      && r.after.Get(Other(num)) == s.Get(Other(num))
      && Half(r.after.cr, num) == 0 && Half(r.after.cr, Other(num)) == Half(s.cr, Other(num))
      && r.after.clock == (s.clock && s.Get(Other(num)).active)
      && r.events[|r.events| - 1] == PinDisable(num)
  {
    ClearHalfClearsExactly(s.cr, num);
  }

  /** Closing a streaming channel cancels the block in flight, once; other modes complete nothing. */
  lemma CloseCancelsInFlight(c: ChannelView, num: nat)
    requires ChanValid(c)
    ensures var r := CloseChan(c, num);
      && Completions(r.events) == (if c.mode == Stream && c.block != INVALID_HANDLE then 1 else 0)
      && (c.mode == Stream && c.block != INVALID_HANDLE ==>
            Complete(c.process, num, c.block, Failed(FileIoCancelled)) in r.events)
  {
    var st := FlushChan(c, num);
    var tail := [IrqDisable(num), DmaClock(false), TimerStop(num)];
    CompletionsZero(tail);
    CompletionsZero([IrqUnregister(num)]);
    if c.mode == Stream {
      FlushCancelsOnce(c, num);
      CompletionsAppend(st.events, [IrqUnregister(num)]);
      CompletionsAppend(st.events + [IrqUnregister(num)], tail);
    } else if c.mode != Level {
      CompletionsAppend([], tail);
    }
  }

  /**
   * Open followed by close does not bring the channel back to where it
   * started: the fifo stays allocated, and the other channel's half of
   * `DAC->CR` is zero even if that channel is still open.
   */
  lemma OpenCloseKeepsFifo(s: DacView, num: nat, mode: Mode, samplerate: u32)
    requires ValidView(s) && num < CHANNELS && !s.Get(num).active && mode != Level
    ensures var o := OpenSpec(s, num, mode, samplerate, true).after;
      var r := CloseSpec(o, num).after;
      && !r.Get(num).active
      && r.Get(num).fifo == Some(Zeros(FIFO_BYTES))
      && r.cr == 0
      && r.Get(Other(num)) == s.Get(Other(num))
  {
    var o := OpenSpec(s, num, mode, samplerate, true).after;
    OpenClearsOtherChannelBits(s, num, mode, samplerate, true);
    ClearHalfClearsExactly(o.cr, num);
    var cr := CloseSpec(o, num).after.cr;
    if num == 0 {
      assert cr % 0x10000 == 0 && cr / 0x10000 == 0;
    } else {
      assert cr / 0x10000 == 0;
    }
  }

  // ---------------------------------------------------------------------------
  // write
  // ---------------------------------------------------------------------------

  /** A write while more than two halves are queued is refused and changes nothing. */
  lemma WriteInProgress(s: DacView, num: nat, block: nat, size: u32, process: nat, mapping: Mapping)
    requires ValidView(s) && WriteAllowed(s, num, mapping)
    requires num < CHANNELS && s.Get(num).active && s.Get(num).cnt > 2
    ensures WriteSpec(s, num, block, size, process, mapping) == Step(s, [Complete(process, num, block, Failed(InProgress))], None)
  {
    assert s.With(num, s.Get(num)) == s;
  }

  /** A write whose block cannot be mapped reports the mapping error and queues nothing. */
  lemma WriteMapFailure(c: ChannelView, num: nat, block: nat, size: u32, process: nat, code: int)
    requires ChanValid(c) && c.cnt <= 2
    ensures var r := WriteChan(c, num, block, size, process, MapFailed(code));
      && r.events == [Complete(process, num, block, Failed(MapError(code)))]
      && r.chan.cnt == c.cnt && r.chan.block == c.block && r.chan.fifo == c.fifo
  {
  }

  /** On an idle channel a block of at least two halves fills the whole fifo from its start. */
  lemma IdleWritePrimesBothHalves(c: ChannelView, num: nat, block: nat, size: u32, process: nat, data: seq<byte>)
    requires ChanValid(c) && c.fifo.Some? && c.cnt == 0
    requires size / HALF_FIFO_BYTES >= 2 && |data| >= FIFO_BYTES
    ensures var r := WriteChan(c, num, block, size, process, Mapped(data)).chan;
      && r.fifo == Some(data[..FIFO_BYTES])
      && r.ptr == FIFO_BYTES
      && r.cnt == size / HALF_FIFO_BYTES
      && r.block == block && r.process == process && r.size == size && r.src == data
  {
    var f := Splice(c.fifo.value, 0, Chunk(data, 0, FIFO_BYTES));
    assert f == f[0..FIFO_BYTES];
  }

  /**
   * When the priming copy fills only one half, it writes half `half` itself,
   * not `!half`, with the block's first 512 bytes and leaves the other half
   * alone; `half` is not changed.
   */
  lemma SingleHalfPrimesCurrentHalf(c: ChannelView, num: nat, block: nat, size: u32, process: nat, data: seq<byte>)
    requires ChanValid(c) && c.fifo.Some? && c.cnt < 2 && !(c.cnt == 0 && size / HALF_FIFO_BYTES >= 2)
    requires |data| >= HALF_FIFO_BYTES
    ensures var r := WriteChan(c, num, block, size, process, Mapped(data)).chan;
      var o, p := HalfOffset(c.half), HalfOffset(!c.half);
      && r.fifo.Some? && |r.fifo.value| == FIFO_BYTES
      && r.fifo.value[o..o + HALF_FIFO_BYTES] == data[..HALF_FIFO_BYTES]
      && r.fifo.value[p..p + HALF_FIFO_BYTES] == c.fifo.value[p..p + HALF_FIFO_BYTES]
      && r.ptr == HALF_FIFO_BYTES && r.half == c.half && r.src == data
  {
    var units := size / HALF_FIFO_BYTES;
    var c1 := c.(block := block, process := process, size := size, src := data, ptr := 0);
    assert Chunk(data, 0, HALF_FIFO_BYTES) == data[..HALF_FIFO_BYTES];
    assert WriteChan(c, num, block, size, process, Mapped(data)).chan == Primed(c1, units).(cnt := c.cnt + units);
  }

  /**
   * An admitted, mapped write adds every unit of the block to `cnt` (the
   * priming copy is not subtracted), starts the timer exactly when the
   * channel was idle, and completes the block at once exactly when the
   * priming copy left no unit over.
   */
  lemma WriteCountsAndStart(c: ChannelView, num: nat, block: nat, size: u32, process: nat, data: seq<byte>)
    requires ChanValid(c) && c.cnt <= 2 && (c.cnt < 2 ==> c.fifo.Some?)
    ensures var r := WriteChan(c, num, block, size, process, Mapped(data));
      && r.chan.cnt == c.cnt + size / HALF_FIFO_BYTES
      && r.chan.block == block
      && (TimerStart(num, c.samplerate) in r.events <==> c.cnt == 0)
      && (Complete(process, num, block, Written(size)) in r.events <==> UnitsLeft(c.cnt, size / HALF_FIFO_BYTES) == 0)
      && Completions(r.events) == (if UnitsLeft(c.cnt, size / HALF_FIFO_BYTES) == 0 then 1 else 0)
  {
    var units := size / HALF_FIFO_BYTES;
    var done: seq<Event> := if UnitsLeft(c.cnt, units) == 0 then [Complete(process, num, block, Written(size))] else [];
    var start: seq<Event> := if c.cnt == 0 then [TimerStart(num, c.samplerate)] else [];
    CompletionsAppend(done, start);
  }

  /**
   * When the write completes at once: the unsigned `cnt_left` of the source
   * is zero only for these cases, and a block of less than one half on a
   * channel with fewer than two halves queued wraps it to the largest value.
   */
  lemma UnitsLeftZero(cnt: int, size: u32)
    requires cnt <= 2
    ensures var units := size / HALF_FIFO_BYTES;
      UnitsLeft(cnt, units) == 0 <==> (cnt == 0 && units == 2) || (cnt < 2 && units == 1) || (cnt == 2 && units == 0)
    ensures cnt < 2 && size < HALF_FIFO_BYTES ==> UnitsLeft(cnt, size / HALF_FIFO_BYTES) == U32_MODULUS - 1
  {
    assert size / HALF_FIFO_BYTES < U32_MODULUS;
  }

  // ---------------------------------------------------------------------------
  // the DMA interrupt
  // ---------------------------------------------------------------------------

  /**
   * One interrupt toggles `half` and counts one half down. With a block in
   * flight and at least two halves left it refills the half just released
   * from the next source bytes; with fewer it completes the block once and
   * drops it. When nothing is queued any more it resets `half` and stops the
   * timer.
   */
  lemma IsrStep(c: ChannelView, num: nat)
    requires FifoSized(c) && c.fifo.Some?
    ensures var r := IsrChan(c, num);
      var cnt := c.cnt - 1;
      && r.chan.cnt == cnt
      && r.chan.half == (cnt > 0 && !c.half)
      && (TimerStop(num) in r.events <==> cnt <= 0)
      && (c.block != INVALID_HANDLE && cnt >= 2 ==>
            && r.chan.fifo.value[HalfOffset(!c.half)..HalfOffset(!c.half) + HALF_FIFO_BYTES] == Chunk(c.src, c.ptr, HALF_FIFO_BYTES)
            && (forall k :: 0 <= k < FIFO_BYTES && !(HalfOffset(!c.half) <= k < HalfOffset(!c.half) + HALF_FIFO_BYTES) ==>
                  r.chan.fifo.value[k] == c.fifo.value[k])
            && r.chan.ptr == c.ptr + HALF_FIFO_BYTES
            && r.chan.block == c.block && r.chan.process == c.process && r.chan.size == c.size
            && Completions(r.events) == 0)
      && (c.block != INVALID_HANDLE && cnt < 2 ==>
            && r.chan.block == INVALID_HANDLE
            && r.events[0] == Complete(c.process, num, c.block, Written(c.size))
            && Completions(r.events) == 1)
      && (c.block == INVALID_HANDLE ==>
            r.chan.block == INVALID_HANDLE && r.chan.fifo == c.fifo && r.chan.ptr == c.ptr && Completions(r.events) == 0)
  {
    var cnt := c.cnt - 1;
    var done: seq<Event> := if c.block != INVALID_HANDLE && cnt < 2 then [Complete(c.process, num, c.block, Written(c.size))] else [];
    CompletionsAppend(done, [TimerStop(num)]);
  }

  /** Interrupts on a channel with no block in flight complete nothing. */
  lemma {:induction false} IdleIsrsCompleteNothing(c: ChannelView, num: nat, m: nat)
    requires FifoSized(c) && c.fifo.Some? && c.block == INVALID_HANDLE
    ensures Completions(IsrRun(c, num, m).events) == 0
    ensures IsrRun(c, num, m).chan.block == INVALID_HANDLE
    decreases m
  {
    if m > 0 {
      var st := IsrChan(c, num);
      IsrStep(c, num);
      IdleIsrsCompleteNothing(st.chan, num, m - 1);
      CompletionsAppend(st.events, IsrRun(st.chan, num, m - 1).events);
    }
  }

  /**
   * A block in flight with `cnt` halves queued is completed exactly once, with
   * its size, by any run of at least `cnt - 1` interrupts (and at least one).
   */
  lemma {:induction false} DrainCompletesOnce(c: ChannelView, num: nat, m: nat)
    requires FifoSized(c) && c.fifo.Some? && c.block != INVALID_HANDLE
    requires m >= 1 && m >= c.cnt - 1
    ensures var r := IsrRun(c, num, m);
      && Completions(r.events) == 1
      && Complete(c.process, num, c.block, Written(c.size)) in r.events
      && r.chan.block == INVALID_HANDLE
    decreases m
  {
    var st := IsrChan(c, num);
    var rest := IsrRun(st.chan, num, m - 1);
    IsrStep(c, num);
    CompletionsAppend(st.events, rest.events);
    if c.cnt - 1 >= 2 {
      DrainCompletesOnce(st.chan, num, m - 1);
    } else {
      IdleIsrsCompleteNothing(st.chan, num, m - 1);
    }
  }

  /**
   * On an idle channel, a block of three halves or more is completed exactly
   * once: not at write time, and once by the interrupts that drain it.
   */
  lemma LongBlockCompletesOnce(c: ChannelView, num: nat, block: nat, size: u32, process: nat, data: seq<byte>, m: nat)
    requires ChanValid(c) && c.fifo.Some? && c.cnt == 0 && block != INVALID_HANDLE
    requires size / HALF_FIFO_BYTES >= 3 && m >= size / HALF_FIFO_BYTES - 1
    ensures var w := WriteChan(c, num, block, size, process, Mapped(data));
      Completions(w.events + IsrRun(w.chan, num, m).events) == 1
  {
    var w := WriteChan(c, num, block, size, process, Mapped(data));
    WriteCountsAndStart(c, num, block, size, process, data);
    UnitsLeftZero(c.cnt, size);
    DrainCompletesOnce(w.chan, num, m);
    CompletionsAppend(w.events, IsrRun(w.chan, num, m).events);
  }

  /**
   * On an idle channel, a block of one or two halves is completed twice: once
   * at write time, because the block stays in flight, and once more by the
   * interrupt that drains it.
   */
  lemma ShortBlockCompletesTwice(c: ChannelView, num: nat, block: nat, size: u32, process: nat, data: seq<byte>, m: nat)
    requires ChanValid(c) && c.fifo.Some? && c.cnt == 0 && block != INVALID_HANDLE
    requires 1 <= size / HALF_FIFO_BYTES <= 2 && m >= 1
    ensures var w := WriteChan(c, num, block, size, process, Mapped(data));
      Completions(w.events + IsrRun(w.chan, num, m).events) == 2
  {
    var w := WriteChan(c, num, block, size, process, Mapped(data));
    WriteCountsAndStart(c, num, block, size, process, data);
    UnitsLeftZero(c.cnt, size);
    DrainCompletesOnce(w.chan, num, m);
    CompletionsAppend(w.events, IsrRun(w.chan, num, m).events);
  }

  /**
   * A block of less than one half on an idle channel is not completed at
   * write time, yet it starts the timer; the first interrupt completes it and
   * leaves `cnt` at -1, so the next write, whatever its block, does not
   * start the timer again.
   */
  lemma SubHalfBlockStalls(c: ChannelView, num: nat, block: nat, size: u32, process: nat, data: seq<byte>,
                           block2: nat, size2: u32, process2: nat, data2: seq<byte>)
    requires ChanValid(c) && c.fifo.Some? && c.cnt == 0 && block != INVALID_HANDLE && size < HALF_FIFO_BYTES
    ensures var w := WriteChan(c, num, block, size, process, Mapped(data));
      var i := IsrChan(w.chan, num);
      && Completions(w.events) == 0 && TimerStart(num, c.samplerate) in w.events
      && Completions(i.events) == 1 && TimerStop(num) in i.events && i.chan.cnt == -1
      && ChanValid(i.chan)
      && forall e :: e in WriteChan(i.chan, num, block2, size2, process2, Mapped(data2)).events ==> !e.TimerStart?
  {
    var w := WriteChan(c, num, block, size, process, Mapped(data));
    WriteCountsAndStart(c, num, block, size, process, data);
    UnitsLeftZero(c.cnt, size);
    IsrStep(w.chan, num);
  }

  // ---------------------------------------------------------------------------
  // flush, level and wave
  // ---------------------------------------------------------------------------

  /** Flush stops the timer, drops the block in flight and cancels it, once, if there was one. */
  lemma FlushCancelsOnce(c: ChannelView, num: nat)
    ensures var r := FlushChan(c, num);
      && r.events[0] == TimerStop(num)
      && r.chan.block == INVALID_HANDLE
      && Completions(r.events) == (if c.block != INVALID_HANDLE then 1 else 0)
      && (c.block != INVALID_HANDLE ==> Complete(c.process, num, c.block, Failed(FileIoCancelled)) in r.events)
      && r.chan.cnt == c.cnt && r.chan.fifo == c.fifo && r.chan.half == c.half
  {
    var cancel: seq<Event> := if c.block != INVALID_HANDLE then [Complete(c.process, num, c.block, Failed(FileIoCancelled))] else [];
    CompletionsAppend([TimerStop(num)], cancel);
  }

  /** After a flush no interrupt completes anything. */
  lemma NothingCompletesAfterFlush(c: ChannelView, num: nat, m: nat)
    requires FifoSized(c) && c.fifo.Some?
    ensures Completions(IsrRun(FlushChan(c, num).chan, num, m).events) == 0
  {
    IdleIsrsCompleteNothing(FlushChan(c, num).chan, num, m);
  }

  /**
   * Flush leaves `cnt` as it was; with more than two halves queued, every
   * later write is refused as in progress, since the stopped timer raises no
   * interrupt to count them down.
   */
  lemma FlushedBacklogRefusesWrites(c: ChannelView, num: nat, block: nat, size: u32, process: nat, mapping: Mapping)
    requires ChanValid(c) && c.cnt > 2
    ensures var f := FlushChan(c, num).chan;
      && ChanValid(f) && WriteCanRun(f, mapping)
      && WriteChan(f, num, block, size, process, mapping) == ChanStep(f, [Complete(process, num, block, Failed(InProgress))])
  {
  }

  /** The level request stores 0 whatever value was asked for. */
  lemma SetLevelIgnoresValue(s: DacView, num: nat, value1: int, value2: int)
    ensures SetLevelSpec(s, num, value1) == SetLevelSpec(s, num, value2)
    ensures num < CHANNELS && s.Get(num).active ==> SetLevelSpec(s, num, value1).events == [DataWrite(num, 0)]
  {
  }

  /**
   * Set-level and wave check only that the channel is open: on a channel
   * with a fifo they report the same error, make the same effects and leave
   * the same fifo whatever mode the channel was opened in, so a wave request
   * overwrites the fifo of a channel that is streaming.
   */
  lemma LevelAndWaveIgnoreMode(s: DacView, num: nat, m: Mode, value: int, waveType: nat, amplitude: int,
                               generated: seq<byte>)
    requires ValidView(s) && num < CHANNELS && s.Get(num).active && s.Get(num).fifo.Some?
    requires |generated| == FIFO_BYTES
    ensures var t := s.With(num, s.Get(num).(mode := m));
      && ValidView(t) && WaveAllowed(t, num, amplitude, generated)
      && SetLevelSpec(t, num, value).err == SetLevelSpec(s, num, value).err == None
      && SetLevelSpec(t, num, value).events == SetLevelSpec(s, num, value).events
      && WaveSpec(t, num, waveType, amplitude, generated).err == WaveSpec(s, num, waveType, amplitude, generated).err == None
      && WaveSpec(t, num, waveType, amplitude, generated).events == WaveSpec(s, num, waveType, amplitude, generated).events
      && WaveSpec(t, num, waveType, amplitude, generated).after.Get(num).fifo
         == WaveSpec(s, num, waveType, amplitude, generated).after.Get(num).fifo
  {
  }

  /** A wave request with amplitude 0 only stops the timer. */
  lemma WaveZeroOnlyStops(s: DacView, num: nat, waveType: nat, generated: seq<byte>)
    requires ValidView(s) && |generated| == FIFO_BYTES && num < CHANNELS && s.Get(num).active
    ensures WaveSpec(s, num, waveType, 0, generated) == Step(s, [TimerStop(num)], None)
  {
  }

  /** Otherwise the fifo holds the generated wave and the timer restarts at `samplerate * 512`, in 32 bits. */
  lemma WaveRegenerates(s: DacView, num: nat, waveType: nat, amplitude: int, generated: seq<byte>)
    requires ValidView(s) && WaveAllowed(s, num, amplitude, generated)
    requires num < CHANNELS && s.Get(num).active && amplitude != 0
    ensures var r := WaveSpec(s, num, waveType, amplitude, generated);
      && r.after.Get(num).fifo == Some(generated)
      && r.after.Get(num) == s.Get(num).(fifo := Some(generated))
      && r.after.Get(Other(num)) == s.Get(Other(num))
      && r.events[0] == TimerStop(num)
      && r.events[|r.events| - 1] == TimerStart(num, (s.Get(num).samplerate * DMA_FIFO_SIZE) % U32_MODULUS)
  {
  }

  // ---------------------------------------------------------------------------
  // the dispatcher
  // ---------------------------------------------------------------------------

  /** Every request gets a reply except a write, which answers through its completion. */
  lemma RequestPostsUnlessWrite(s: DacView, req: Request, env: Env)
    requires ValidView(s) && RequestAllowed(s, req, env)
    ensures RequestSpec(s, req, env).1 <==> !req.WriteReq?
    ensures req.OtherReq? ==> RequestSpec(s, req, env).0 == Step(s, [], Some(NotSupported))
    ensures req.WriteReq? ==> RequestSpec(s, req, env).0.err == None
  {
  }
}
