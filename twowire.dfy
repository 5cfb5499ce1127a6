/** A stand-in for the Arduino `TwoWire` driver: every call is recorded in a trace, and the
    values the hardware would produce come from functions fixed when the bus is made. */
module TwoWire {
  import opened Bytes

  /** One call into the driver. */
  datatype Event =
    | Begin(addr: int)                  // beginTransmission(addr)
    | Write(b: byte)                    // write(b)
    | End(stop: byte)                   // endTransmission(stop)
    | RequestFrom(addr: int, count: int)  // requestFrom(addr, count)
    | Read(v: int)                      // read(), which returned v

  /** One Write event per byte, in order. */
  function Writes(bs: seq<byte>): (t: seq<Event>)
    ensures |t| == |bs|
  {
    if bs == [] then [] else Writes(bs[..|bs| - 1]) + [Event.Write(bs[|bs| - 1])]
  }

  /** One Read event per value returned, in order. */
  function Reads(vs: seq<int>): (t: seq<Event>)
    ensures |t| == |vs|
  {
    if vs == [] then [] else Reads(vs[..|vs| - 1]) + [Event.Read(vs[|vs| - 1])]
  }

  /** Event k of Writes(bs) writes bs[k]. */
  lemma {:induction false} WritesAt(bs: seq<byte>)
    ensures forall k :: 0 <= k < |bs| ==> Writes(bs)[k] == Event.Write(bs[k])
  {
    if bs != [] {
      WritesAt(bs[..|bs| - 1]);
    }
  }

  /** Event k of Reads(vs) reads vs[k]. */
  lemma {:induction false} ReadsAt(vs: seq<int>)
    ensures forall k :: 0 <= k < |vs| ==> Reads(vs)[k] == Event.Read(vs[k])
  {
    if vs != [] {
      ReadsAt(vs[..|vs| - 1]);
    }
  }

  /** How many times read() has been called. */
  function ReadCount(t: seq<Event>): nat {
    if t == [] then 0 else ReadCount(t[..|t| - 1]) + (if t[|t| - 1].Read? then 1 else 0)
  }

  /** How many times endTransmission() has been called. */
  function EndCount(t: seq<Event>): nat {
    if t == [] then 0 else EndCount(t[..|t| - 1]) + (if t[|t| - 1].End? then 1 else 0)
  }

  /** The bytes put on the wire by write(), in order. */
  function BytesWritten(t: seq<Event>): seq<byte> {
    if t == [] then [] else BytesWritten(t[..|t| - 1]) + (if t[|t| - 1].Write? then [t[|t| - 1].b] else [])
  }

  /** The three projections of a trace distribute over concatenation. */
  lemma {:induction false} TraceAppend(t: seq<Event>, u: seq<Event>)
    ensures ReadCount(t + u) == ReadCount(t) + ReadCount(u)
    ensures EndCount(t + u) == EndCount(t) + EndCount(u)
    ensures BytesWritten(t + u) == BytesWritten(t) + BytesWritten(u)
  {
    if u == [] {
      assert t + u == t;
    } else {
      var u' := u[..|u| - 1];
      TraceAppend(t, u');
      assert (t + u)[..|t + u| - 1] == t + u';
    }
  }

  /** The projections after one more event. */
  lemma Snoc(t: seq<Event>, e: Event)
    ensures ReadCount(t + [e]) == ReadCount(t) + (if e.Read? then 1 else 0)
    ensures EndCount(t + [e]) == EndCount(t) + (if e.End? then 1 else 0)
    ensures BytesWritten(t + [e]) == BytesWritten(t) + (if e.Write? then [e.b] else [])
  {
    assert (t + [e])[..|t|] == t;
  }

  /** Writing a buffer puts exactly that buffer on the wire, and neither reads nor ends. */
  lemma {:induction false} WritesProjections(bs: seq<byte>)
    ensures BytesWritten(Writes(bs)) == bs
    ensures ReadCount(Writes(bs)) == 0 && EndCount(Writes(bs)) == 0
  {
    if bs != [] {
      var pre := bs[..|bs| - 1];
      WritesProjections(pre);
      Snoc(Writes(pre), Event.Write(bs[|bs| - 1]));
      assert pre + [bs[|bs| - 1]] == bs;
    }
  }

  /** A run of n reads counts n reads, no ends and no bytes written. */
  lemma {:induction false} ReadsProjections(vs: seq<int>)
    ensures ReadCount(Reads(vs)) == |vs|
    ensures EndCount(Reads(vs)) == 0 && BytesWritten(Reads(vs)) == []
  {
    if vs != [] {
      var pre := vs[..|vs| - 1];
      ReadsProjections(pre);
      Snoc(Reads(pre), Event.Read(vs[|vs| - 1]));
    }
  }

  /** Extending a run of reads by one value extends its trace by one Read event. */
  lemma ReadsSnoc(t: seq<Event>, vs: seq<int>, i: nat)
    requires i < |vs|
    ensures t + Reads(vs[..i + 1]) == t + Reads(vs[..i]) + [Event.Read(vs[i])]
  {
    assert vs[..i + 1][..i] == vs[..i];
  }

  /** Each read() after `t` advances the read count by one. */
  lemma ReadCountAfterReads(t: seq<Event>, vs: seq<int>)
    ensures ReadCount(t + Reads(vs)) == ReadCount(t) + |vs|
  {
    TraceAppend(t, Reads(vs));
    ReadsProjections(vs);
  }

  /** The mock driver. `endStatus(k)` is the status of the k-th endTransmission() and
      `rxData(k)` the value of the k-th read(), both counted from 0. */
  class Bus {
    var trace: seq<Event>
    const endStatus: nat -> byte
    const rxData: nat -> int

    constructor (endStatus: nat -> byte, rxData: nat -> int)
      ensures trace == []
      ensures this.endStatus == endStatus && this.rxData == rxData
    {
      trace := [];
      this.endStatus := endStatus;
      this.rxData := rxData;
    }

    method BeginTransmission(addr: int)
      modifies this`trace
      ensures trace == old(trace) + [Event.Begin(addr)]
    {
      trace := trace + [Event.Begin(addr)];
    }

    method WriteByte(b: byte)
      modifies this`trace
      ensures trace == old(trace) + [Event.Write(b)]
    {
      trace := trace + [Event.Write(b)];
    }

    /** Returns the status of this transmission: 0 means it was acknowledged. */
    method EndTransmission(stop: byte) returns (status: byte)
      modifies this`trace
      ensures trace == old(trace) + [Event.End(stop)]
      ensures status == endStatus(EndCount(old(trace)))
    {
      status := endStatus(EndCount(trace));
      trace := trace + [Event.End(stop)];
    }

    method RequestFrom(addr: int, count: int)
      modifies this`trace
      ensures trace == old(trace) + [Event.RequestFrom(addr, count)]
    {
      trace := trace + [Event.RequestFrom(addr, count)];
    }

    /** Returns the next value the device delivers. */
    method Read() returns (v: int)
      modifies this`trace
      ensures trace == old(trace) + [Event.Read(v)]
      ensures v == rxData(ReadCount(old(trace)))
    {
      v := rxData(ReadCount(trace));
      trace := trace + [Event.Read(v)];
    }
  }

  /** Sends every byte of `buf` with write(), in order. */
  method WriteBytes(bus: Bus, buf: array<byte>)
    modifies bus
    ensures bus.trace == old(bus.trace) + Writes(buf[..])
  {
    var i := 0;
    while i < buf.Length
      invariant 0 <= i <= buf.Length
      invariant bus.trace == old(bus.trace) + Writes(buf[..i])
    {
      bus.WriteByte(buf[i]);
      assert buf[..i + 1][..i] == buf[..i];
      i := i + 1;
    }
    assert buf[..i] == buf[..];
  }
}
