/** Whole-call scenarios on a fresh mock bus: what a script sees and what the bus records. */
module Scenarios {
  import opened Errors
  import opened Bytes
  import opened Coercion
  import opened TwoWire
  import opened I2C

  /** Writes [1, 2, 3] to slave 0x48 with the default stop flag, then reads 3 bytes back from a
      device that delivers 1, 2, 3. The write ends with stop flag 1; the read primes even with no
      register bytes, and both of its requests go to the stored address 0. */
  method Loopback() returns (wrote: Result<bool>, got: Result<seq<byte>>, trace: seq<Event>)
    ensures wrote == Ok(true)
    ensures got == Ok([1, 2, 3])
    ensures trace == [Begin(0x48), Event.Write(1), Event.Write(2), Event.Write(3), End(1),
                      Begin(0x48), RequestFrom(0, 3), End(0),
                      RequestFrom(0, 3), Event.Read(1), Event.Read(2), Event.Read(3)]
  {
    var wire := new Bus(k => 0, k => k + 1);
    var h := new Handle(wire, 0, Ary([]));
    var asString: Stringify := o => Some([]);
    TruncatedValues([1, 2, 3], [1, 2, 3]);
    wrote := h.Write(asString, 0x48, Ary([1, 2, 3]));
    ghost var t1 := wire.trace;
    assert t1 == WriteTrace(0x48, [1, 2, 3], true);
    LoopbackWrite();
    assert ReadCount(t1) == 0;
    got := h.Read(0x48, 3, []);
    LoopbackRead(wire.rxData);
    assert wire.trace == WriteTrace(0x48, [1, 2, 3], true) + ReadTrace(0x48, 0, 3, Truncated([]), Replies(wire.rxData, 0, 3));
    LoopbackTrace(wire.rxData);
    trace := wire.trace;
  }

  /** The events of writing [1, 2, 3] to 0x48 with stop set, and what they count. */
  lemma LoopbackWrite()
    ensures WriteTrace(0x48, [1, 2, 3], true) == [Begin(0x48), Event.Write(1), Event.Write(2), Event.Write(3), End(1)]
    ensures ReadCount(WriteTrace(0x48, [1, 2, 3], true)) == 0
  {
    WritesAt([1, 2, 3]);
    WriteTraceProjections(0x48, [1, 2, 3], true);
  }

  /** The events of reading 3 bytes with no register bytes from a device that delivers k + 1
      on its k-th read, and the bytes returned. */
  lemma LoopbackRead(rxData: nat -> int)
    requires forall k: nat :: rxData(k) == k + 1
    ensures Replies(rxData, 0, 3) == [1, 2, 3]
    ensures Truncated(Replies(rxData, 0, 3)) == [1, 2, 3]
    ensures ReadTrace(0x48, 0, 3, Truncated([]), Replies(rxData, 0, 3)) ==
      [Begin(0x48), RequestFrom(0, 3), End(0), RequestFrom(0, 3), Event.Read(1), Event.Read(2), Event.Read(3)]
  {
    var vals := Replies(rxData, 0, 3);
    assert vals == [1, 2, 3];
    TruncatedValues(vals, [1, 2, 3]);
    ReadsAt(vals);
    assert Truncated([]) == [] && Writes([]) == [];
  }

  /** The two transactions of Loopback, event by event. */
  lemma LoopbackTrace(rxData: nat -> int)
    requires forall k: nat :: rxData(k) == k + 1
    ensures WriteTrace(0x48, [1, 2, 3], true) + ReadTrace(0x48, 0, 3, Truncated([]), Replies(rxData, 0, 3)) ==
      [Begin(0x48), Event.Write(1), Event.Write(2), Event.Write(3), End(1),
       Begin(0x48), RequestFrom(0, 3), End(0),
       RequestFrom(0, 3), Event.Read(1), Event.Read(2), Event.Read(3)]
  {
    var w := WriteTrace(0x48, [1, 2, 3], true);
    var r := ReadTrace(0x48, 0, 3, Truncated([]), Replies(rxData, 0, 3));
    LoopbackWrite();
    LoopbackRead(rxData);
    assert w == [Begin(0x48), Event.Write(1), Event.Write(2), Event.Write(3), End(1)];
    assert r == [Begin(0x48), RequestFrom(0, 3), End(0), RequestFrom(0, 3), Event.Read(1), Event.Read(2), Event.Read(3)];
  }

  /** Two handles share one bus. After the first is freed, its write and read fail with
      AlreadyClosed and record nothing, while the second still writes; the device's nonzero
      status (a NACK) gives `false`, not an error. */
  method SharedBus() returns (w1: Result<bool>, r1: Result<seq<byte>>, w2: Result<bool>, trace: seq<Event>)
    ensures w1 == Err(AlreadyClosed) && r1 == Err(AlreadyClosed)
    ensures w2 == Ok(false)
    ensures trace == [Begin(0x50), Event.Write(65), End(1)]
  {
    var wire := new Bus(k => 2, k => 0);
    var h1 := new Handle(wire, 0, Ary([]));
    var h2 := new Handle(wire, 0, Ary([]));
    h1.Free();
    var asString: Stringify := o => Some([]);
    w1 := h1.Write(asString, 0x50, Int(65));
    r1 := h1.Read(0x50, -1, [1]);
    w2 := h2.Write(asString, 0x50, Int(65), true);
    trace := wire.trace;
  }

  /** Truncation leaves values that already fit in a byte unchanged. */
  lemma TruncatedValues(xs: seq<int>, bs: seq<byte>)
    requires |xs| == |bs|
    requires forall i :: 0 <= i < |xs| ==> xs[i] == bs[i] as int
    ensures Truncated(xs) == bs
  {
    var t := Truncated(xs);
    forall i | 0 <= i < |xs|
      ensures t[i] == bs[i]
    {
      Low8Properties(xs[i], 0);
      assert Low8(xs[i]) as int == bs[i] as int;
    }
  }
}
