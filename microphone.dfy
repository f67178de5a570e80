/** The microphone frame buffer (voicebots/microphone.py).

    The driver callback puts frames on a queue; `generator` takes them off
    and yields them in coalesced chunks.  The callback thread is modelled by
    calls to FillBuffer made between pulls of the generator; a blocking
    `get()` on an empty queue, which waits for the next callback, is
    excluded by a precondition instead of being waited out. */
module Microphone {
  import opened Wrappers
  import opened ByteStrings

  /** The pyaudio callback return code the callback gives. */
  datatype CallbackFlag = PaContinue

  /** The result of `get(block=False)`: an item, or `queue.Empty`. */
  datatype Polled = Item(item: Option<Bytes>) | Empty

  /** The audio in a run of queue items: the frames in order, with the
      sentinels skipped. */
  function Audio(items: seq<Option<Bytes>>): Bytes
  {
    if items == [] then []
    else (if items[0].Some? then items[0].value else []) + Audio(items[1..])
  }

  /** The index of the first sentinel, or the length if there is none. */
  function FirstSentinel(items: seq<Option<Bytes>>): (k: nat)
    ensures k <= |items|
    ensures k < |items| ==> items[k] == None
    ensures forall j :: 0 <= j < k ==> items[j].Some?
  {
    if items == [] || items[0].None? then 0 else 1 + FirstSentinel(items[1..])
  }

  /** What one round of `generator` does with the queue it finds. */
  datatype Round = Round(chunk: Option<Bytes>, consumed: nat)

  /** One round of the generator loop on a non-empty queue: take the first
      item, then keep taking until the queue is empty or a sentinel comes.
      A round that meets a sentinel yields nothing; one that does not yields
      all of its frames as one chunk. */
  function DrainRound(q: seq<Option<Bytes>>): (r: Round)
    requires q != []
    ensures 1 <= r.consumed <= |q|
    ensures r.chunk.Some? <==> None !in q
    ensures r.chunk.Some? ==> r.consumed == |q| && r.chunk.value == Audio(q)
    ensures r.chunk.None? ==> q[r.consumed - 1] == None && None !in q[..r.consumed - 1]
  {
    var k := FirstSentinel(q);
    if k < |q| then
      assert forall j :: 0 <= j < k ==> q[..k][j] == q[j];
      Round(None, k + 1)
    else Round(Some(Audio(q)), |q|)
  }

  lemma {:induction false} AudioAppend(a: seq<Option<Bytes>>, b: seq<Option<Bytes>>)
    ensures Audio(a + b) == Audio(a) + Audio(b)
    decreases |a|
  {
    if a == [] {
      assert a + b == b;
    } else {
      assert (a + b)[1..] == a[1..] + b;
      AudioAppend(a[1..], b);
    }
  }

  lemma AudioOfFrame(x: Bytes)
    ensures Audio([Some(x)]) == x
  {
    assert [Some(x)][1..] == [];
  }

  /** A round that meets its first sentinel at `n` stops there. */
  lemma DrainStopsAt(q: seq<Option<Bytes>>, n: nat)
    requires n < |q| && q[n] == None && None !in q[..n]
    ensures DrainRound(q) == Round(None, n + 1)
  {
    assert forall j :: 0 <= j < n ==> q[..n][j] == q[j];
    assert FirstSentinel(q) == n;
  }

  /** Taking the frame at `n` extends the chunk by that frame. */
  lemma DrainTakes(q: seq<Option<Bytes>>, n: nat, data: seq<Bytes>)
    requires n < |q| && q[n].Some? && None !in q[..n]
    requires Concat(data) == Audio(q[..n])
    ensures None !in q[..n + 1] && Concat(data + [q[n].value]) == Audio(q[..n + 1])
  {
    var x := q[n].value;
    assert q[..n + 1] == q[..n] + [q[n]];
    AudioAppend(q[..n], [q[n]]);
    AudioOfFrame(x);
    ConcatAppend(data, [x]);
    assert Concat([x]) == x by {
      assert [x][1..] == [];
    }
  }

  /** A round that empties the queue without a sentinel yields all of it. */
  lemma DrainAll(q: seq<Option<Bytes>>, n: nat, data: seq<Bytes>)
    requires 1 <= n == |q| && None !in q[..n] && Concat(data) == Audio(q[..n])
    ensures DrainRound(q) == Round(Some(Concat(data)), |q|)
  {
    assert q[..n] == q;
  }

  /** `queue.Queue` holding frames and the `None` sentinel.  The ghost
      history records every item ever put and every item ever taken. */
  class FrameQueue {
    var items: seq<Option<Bytes>>
    ghost var put: seq<Option<Bytes>>
    ghost var taken: seq<Option<Bytes>>

    /** First in, first out: what was put is what was taken, then what is
        still queued. */
    ghost predicate Valid()
      reads this
    {
      put == taken + items
    }

    constructor ()
      ensures Valid() && items == [] && put == [] && taken == []
    {
      items, put, taken := [], [], [];
    }

    method Put(x: Option<Bytes>)
      requires Valid()
      modifies this
      ensures Valid()
      ensures items == old(items) + [x] && put == old(put) + [x] && taken == old(taken)
    {
      items := items + [x];
      put := put + [x];
    }

    /** The blocking `get()`, on a queue that has an item. */
    method Get() returns (x: Option<Bytes>)
      requires Valid() && items != []
      modifies this
      ensures Valid()
      ensures x == old(items)[0] && items == old(items)[1..]
      ensures taken == old(taken) + [x] && put == old(put)
    {
      x := items[0];
      items := items[1..];
      taken := taken + [x];
    }

    /** `get(block=False)` */
    method GetNowait() returns (p: Polled)
      requires Valid()
      modifies this
      ensures Valid()
      ensures old(items) == [] ==> p == Empty && items == [] && taken == old(taken)
      ensures old(items) != [] ==> p == Item(old(items)[0]) && items == old(items)[1..]
                                   && taken == old(taken) + [old(items)[0]]
      ensures put == old(put)
    {
      if items == [] {
        return Empty;
      }
      var x := items[0];
      items := items[1..];
      taken := taken + [x];
      return Item(x);
    }

    /** One round of `generator` on a non-empty queue: a blocking get, then
        non-blocking gets until the queue is empty or a sentinel comes.  The
        frames are joined into one chunk; a sentinel, at either point, makes
        the round yield nothing, dropping the frames it had drained. */
    method Round() returns (chunk: Option<Bytes>)
      requires Valid() && items != []
      modifies this
      ensures Valid() && put == old(put)
      ensures (var r := DrainRound(old(items));
               && chunk == r.chunk
               && items == old(items)[r.consumed..]
               && taken == old(taken) + old(items)[..r.consumed])
    {
      ghost var q := items;
      ghost var taken0 := taken;
      var first := Get();
      if first == None {
        assert q[..1] == [None];
        return None;
      }
      var data: seq<Bytes> := [first.value];
      ghost var n: nat := 1;
      assert q[..1] == [first];
      AudioOfFrame(first.value);
      assert Concat(data) == first.value by {
        assert data[1..] == [];
      }
      while true
        invariant Valid() && put == old(put)
        invariant 1 <= n <= |q| && items == q[n..]
        invariant None !in q[..n]
        invariant Concat(data) == Audio(q[..n])
        invariant taken == taken0 + q[..n]
        decreases |items|
      {
        var polled := GetNowait();
        if polled.Empty? {
          break;
        }
        var item := polled.item;
        assert q[..n + 1] == q[..n] + [item];
        if item == None {
          DrainStopsAt(q, n);
          return None;
        }
        DrainTakes(q, n, data);
        data := data + [item.value];
        n := n + 1;
      }
      DrainAll(q, n, data);
      chunk := Some(Concat(data));
    }
  }

  /** `MicrophoneStream`.  `hasDevice` records whether `open_stream` has set
      `_audio_stream`; the device itself is not modelled. */
  class MicrophoneStream {
    const rate: int
    const chunk: int
    const buff: FrameQueue
    var closed: bool
    var hasDevice: bool

    ghost predicate Valid()
      reads this, buff
    {
      buff.Valid()
    }

    /** A new stream is closed and its queue is empty. */
    constructor (rate: int, chunk: int)
      ensures Valid() && fresh(buff)
      ensures this.rate == rate && this.chunk == chunk
      ensures closed && !hasDevice
      ensures buff.items == [] && buff.put == [] && buff.taken == []
    {
      this.rate := rate;
      this.chunk := chunk;
      buff := new FrameQueue();
      closed := true;
      hasDevice := false;
    }

    /** `open_stream` (and `__enter__`): the device starts calling back. */
    method OpenStream()
      modifies this
      ensures !closed && hasDevice
      ensures unchanged(buff)
    {
      hasDevice := true;
      closed := false;
    }

    /** `close_stream` (and `__exit__`): mark the stream closed, then queue
        the sentinel behind every frame already queued.  Before
        `open_stream` there is no `_audio_stream`, so it raises and changes
        nothing. */
    method CloseStream() returns (error: Option<Error>)
      requires Valid()
      modifies this, buff
      ensures Valid()
      ensures hasDevice == old(hasDevice)
      ensures old(hasDevice) ==> error == None && closed
                                 && buff.items == old(buff.items) + [None]
                                 && buff.put == old(buff.put) + [None]
                                 && buff.taken == old(buff.taken)
      ensures !old(hasDevice) ==> error == Some(AttributeError) && unchanged(this, buff)
    {
      if !hasDevice {
        return Some(AttributeError);
      }
      closed := true;
      buff.Put(None);
      error := None;
    }

    /** `_fill_buffer`, the driver callback: queue the frame and ask to be
        called again. */
    method FillBuffer(inData: Bytes, frameCount: int, statusFlags: int) returns (outData: Option<Bytes>, flag: CallbackFlag)
      requires Valid()
      modifies buff
      ensures Valid()
      ensures buff.items == old(buff.items) + [Some(inData)]
      ensures buff.put == old(buff.put) + [Some(inData)] && buff.taken == old(buff.taken)
      ensures outData == None && flag == PaContinue
    {
      buff.Put(Some(inData));
      outData, flag := None, PaContinue;
    }

    /** `generator()`: nothing runs until the first pull. */
    method Generator() returns (g: ChunkGenerator)
      requires Valid()
      ensures fresh(g) && g.mic == this && g.Valid()
      ensures !g.done && g.got == [] && g.yielded == []
    {
      g := new ChunkGenerator(this);
    }
  }

  /** The generator returned by `MicrophoneStream.generator`, with the
      items it has taken from the queue and the chunks it has yielded as
      ghost history. */
  class ChunkGenerator {
    const mic: MicrophoneStream
    /** How many items had been taken from the queue when it was created. */
    ghost const start: nat
    var done: bool
    ghost var got: seq<Option<Bytes>>
    ghost var yielded: seq<Bytes>

    /** The generator takes items off the front of the queue, and what it
        has yielded is, in order, a prefix of the audio it has taken: all of
        it while the generator is running. */
    ghost predicate Valid()
      reads this, mic, mic.buff
    {
      && mic.Valid()
      && start + |got| == |mic.buff.taken|
      && mic.buff.taken[start..] == got
      && Concat(yielded) <= Audio(got)
      && (!done ==> None !in got && Concat(yielded) == Audio(got))
    }

    constructor (mic: MicrophoneStream)
      requires mic.Valid()
      ensures this.mic == mic && Valid()
      ensures !done && got == [] && yielded == []
    {
      this.mic := mic;
      start := |mic.buff.taken|;
      done := false;
      got := [];
      yielded := [];
    }

    /** One pull.  A round starts only while the stream is open (see
        FrameQueue.Round); a sentinel ends the generator. */
    method Next() returns (chunk: Option<Bytes>)
      requires Valid()
      requires done || mic.closed || mic.buff.items != []
      modifies this, mic.buff
      ensures Valid()
      ensures mic.buff.put == old(mic.buff.put)
      ensures old(done || mic.closed) ==>
                chunk == None && done && unchanged(mic.buff) && got == old(got) && yielded == old(yielded)
      ensures !old(done || mic.closed) ==>
                var r := DrainRound(old(mic.buff.items));
                && chunk == r.chunk
                && done == r.chunk.None?
                && mic.buff.items == old(mic.buff.items)[r.consumed..]
                && got == old(got) + old(mic.buff.items)[..r.consumed]
                && yielded == old(yielded) + (if r.chunk.Some? then [r.chunk.value] else [])
    {
      if done || mic.closed {
        done := true;
        return None;
      }
      ghost var q := mic.buff.items;
      ghost var r := DrainRound(q);
      ghost var taken0 := mic.buff.taken;
      chunk := mic.buff.Round();
      HistoryAppend(taken0, start, got, q[..r.consumed]);
      AudioAppend(got, q[..r.consumed]);
      got := got + q[..r.consumed];
      if chunk == None {
        done := true;
      } else {
        assert q[..r.consumed] == q;
        ConcatAppend(yielded, [chunk.value]);
        assert Concat([chunk.value]) == chunk.value by {
          assert [chunk.value][1..] == [];
        }
        yielded := yielded + [chunk.value];
      }
    }
  }

  /** Taking more items extends the generator's share of the history. */
  lemma HistoryAppend(taken: seq<Option<Bytes>>, start: nat, got: seq<Option<Bytes>>, more: seq<Option<Bytes>>)
    requires start + |got| == |taken| && taken[start..] == got
    ensures start + |got + more| == |taken + more| && (taken + more)[start..] == got + more
  {
  }

  /** What the generator has yielded is, in order, a prefix of the audio
      pushed since it was created: no frame is repeated, reordered or
      invented. */
  lemma YieldedIsPrefixOfPushed(g: ChunkGenerator)
    requires g.Valid()
    ensures Concat(g.yielded) <= Audio(g.mic.buff.put[g.start..])
  {
    var q := g.mic.buff;
    assert q.put[g.start..] == g.got + q.items;
    AudioAppend(g.got, q.items);
  }

  /** A stream that was never opened yields nothing. */
  method NothingBeforeOpen(frame: Bytes) returns (chunk: Option<Bytes>)
    ensures chunk == None
  {
    var mic := new MicrophoneStream(44100, 4410);
    var _, _ := mic.FillBuffer(frame, 4410, 0);
    var gen := mic.Generator();
    chunk := gen.Next();
  }

  /** Frames queued between two pulls come out as one chunk, in order. */
  method QueuedFramesCoalesce(a: Bytes, b: Bytes) returns (chunk: Option<Bytes>)
    ensures chunk == Some(a + b)
  {
    var mic := new MicrophoneStream(44100, 4410);
    mic.OpenStream();
    var gen := mic.Generator();
    var _, _ := mic.FillBuffer(a, 4410, 0);
    var _, _ := mic.FillBuffer(b, 4410, 0);
    chunk := gen.Next();
    assert DrainRound([Some(a), Some(b)]).chunk == Some(Audio([Some(a), Some(b)]));
    AudioAppend([Some(a)], [Some(b)]);
    AudioOfFrame(a);
    AudioOfFrame(b);
  }

  /** Frames still queued when the stream is closed are never yielded: the
      generator checks `closed` before it drains. */
  method CloseDropsQueuedFrames(frame: Bytes) returns (chunk: Option<Bytes>)
    ensures chunk == None
  {
    var mic := new MicrophoneStream(44100, 4410);
    mic.OpenStream();
    var gen := mic.Generator();
    var _, _ := mic.FillBuffer(frame, 4410, 0);
    var _ := mic.CloseStream();
    chunk := gen.Next();
  }

  /** A sentinel met while draining ends the generator and drops the frames
      already drained in that round. */
  method SentinelDropsDrainedFrames(a: Bytes, b: Bytes) returns (chunk: Option<Bytes>, done: bool)
    ensures chunk == None && done
  {
    var mic := new MicrophoneStream(44100, 4410);
    mic.OpenStream();
    var gen := mic.Generator();
    var _, _ := mic.FillBuffer(a, 4410, 0);
    mic.buff.Put(None);
    var _, _ := mic.FillBuffer(b, 4410, 0);
    DrainStopsAt(mic.buff.items, 1);
    chunk := gen.Next();
    done := gen.done;
  }
}
