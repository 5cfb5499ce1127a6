/** The `I2C` script class: a handle on the shared bus, and its `read` and `write` transactions. */
module I2C {
  import opened Errors
  import opened Bytes
  import opened Coercion
  import opened TwoWire

  /** The flag `write` passes to endTransmission: 1 releases the bus, 0 keeps it for a repeated start. */
  function StopFlag(stop: bool): byte {
    if stop then 1 else 0
  }

  /** The calls `write` makes: address the slave, send every byte, end the transmission. */
  function WriteTrace(addr: int, buf: seq<byte>, stop: bool): (t: seq<Event>)
    ensures |t| == |buf| + 2 && t[0] == Begin(addr) && t[|t| - 1] == End(StopFlag(stop))
  {
    [Begin(addr)] + Writes(buf) + [End(StopFlag(stop))]
  }

  /** The priming transaction `read` opens with. The register bytes go to the caller's address,
      while the request in the middle goes to the handle's stored address. */
  function PrimeTrace(addr: int, stored: int, len: int, prime: seq<byte>): (t: seq<Event>)
    ensures |t| == |prime| + 3 && t[0] == Begin(addr) && t[1] == RequestFrom(stored, len)
    ensures t[|t| - 1] == End(0)
  {
    [Begin(addr), RequestFrom(stored, len)] + Writes(prime) + [End(0)]
  }

  /** The calls `read` makes: prime, request `len` bytes from the stored address, read them one by one. */
  function ReadTrace(addr: int, stored: int, len: int, prime: seq<byte>, vals: seq<int>): (t: seq<Event>)
    ensures |t| == |prime| + 4 + |vals| && t[0] == Begin(addr)
    ensures t[|prime| + 3] == RequestFrom(stored, len)
  {
    PrimeTrace(addr, stored, len, prime) + [RequestFrom(stored, len)] + Reads(vals)
  }

  /** The `len` values the device delivers, starting with the `from`-th read() of the bus. */
  function Replies(rxData: nat -> int, from: nat, len: nat): (vals: seq<int>)
    ensures |vals| == len
  {
    seq(len, (k: int) requires 0 <= k => rxData(from + k))
  }

  /** The write trace, event by event: Begin(addr), then Write(buf[0]) .. Write(buf[|buf|-1]), then End. */
  lemma WriteTraceShape(addr: int, buf: seq<byte>, stop: bool)
    ensures var t := WriteTrace(addr, buf, stop);
      |t| == |buf| + 2 && t[0] == Begin(addr) && t[|buf| + 1] == End(StopFlag(stop)) &&
      forall k :: 0 <= k < |buf| ==> t[k + 1] == Event.Write(buf[k])
  {
    WritesAt(buf);
  }

  /** A write transaction puts exactly the buffer on the wire, ends once and never reads. */
  lemma WriteTraceProjections(addr: int, buf: seq<byte>, stop: bool)
    ensures BytesWritten(WriteTrace(addr, buf, stop)) == buf
    ensures EndCount(WriteTrace(addr, buf, stop)) == 1
    ensures ReadCount(WriteTrace(addr, buf, stop)) == 0
  {
    var t1: seq<Event> := [Begin(addr)];
    Snoc([], Begin(addr));
    assert [] + [Begin(addr)] == t1;
    var t2 := t1 + Writes(buf);
    TraceAppend(t1, Writes(buf));
    WritesProjections(buf);
    Snoc(t2, End(StopFlag(stop)));
  }

  /** The read trace, event by event. */
  lemma ReadTraceShape(addr: int, stored: int, len: int, prime: seq<byte>, vals: seq<int>)
    ensures var t := ReadTrace(addr, stored, len, prime, vals);
      var p := |prime|;
      |t| == p + 4 + |vals| &&
      t[0] == Begin(addr) && t[1] == RequestFrom(stored, len) &&
      (forall k :: 0 <= k < p ==> t[2 + k] == Event.Write(prime[k])) &&
      t[p + 2] == End(0) && t[p + 3] == RequestFrom(stored, len) &&
      (forall i :: 0 <= i < |vals| ==> t[p + 4 + i] == Event.Read(vals[i]))
  {
    WritesAt(prime);
    ReadsAt(vals);
  }

  /** Every requestFrom of `read` uses the stored address and asks for `len` bytes;
      the caller's address is used by beginTransmission only. */
  lemma ReadTraceAddresses(addr: int, stored: int, len: int, prime: seq<byte>, vals: seq<int>)
    ensures var t := ReadTrace(addr, stored, len, prime, vals);
      forall k :: 0 <= k < |t| ==>
        (t[k].RequestFrom? ==> t[k].addr == stored && t[k].count == len) &&
        (t[k].Begin? ==> t[k].addr == addr)
  {
    ReadTraceShape(addr, stored, len, prime, vals);
    var t := ReadTrace(addr, stored, len, prime, vals);
    var p := |prime|;
    forall k | 0 <= k < |t|
      ensures (t[k].RequestFrom? ==> t[k].addr == stored && t[k].count == len) && (t[k].Begin? ==> t[k].addr == addr)
    {
      if 2 <= k < p + 2 {
        assert t[2 + (k - 2)] == Event.Write(prime[k - 2]);
      } else if p + 4 <= k {
        assert t[p + 4 + (k - p - 4)] == Event.Read(vals[k - p - 4]);
      }
    }
  }

  /** The priming transaction writes the prime bytes, ends once and never reads. */
  lemma PrimeTraceProjections(addr: int, stored: int, len: int, prime: seq<byte>)
    ensures BytesWritten(PrimeTrace(addr, stored, len, prime)) == prime
    ensures EndCount(PrimeTrace(addr, stored, len, prime)) == 1
    ensures ReadCount(PrimeTrace(addr, stored, len, prime)) == 0
  {
    var t1: seq<Event> := [Begin(addr)];
    Snoc([], Begin(addr));
    assert [] + [Begin(addr)] == t1;
    var t2 := t1 + [RequestFrom(stored, len)];
    Snoc(t1, RequestFrom(stored, len));
    assert BytesWritten(t2) == [] && EndCount(t2) == 0 && ReadCount(t2) == 0;
    var t3 := t2 + Writes(prime);
    TraceAppend(t2, Writes(prime));
    WritesProjections(prime);
    assert BytesWritten(t3) == prime && EndCount(t3) == 0 && ReadCount(t3) == 0;
    Snoc(t3, End(0));
    assert PrimeTrace(addr, stored, len, prime) == t3 + [End(0)];
  }

  /** A read transaction writes the prime bytes once, ends once, and reads once per result byte. */
  lemma ReadTraceProjections(addr: int, stored: int, len: int, prime: seq<byte>, vals: seq<int>)
    ensures BytesWritten(ReadTrace(addr, stored, len, prime, vals)) == prime
    ensures EndCount(ReadTrace(addr, stored, len, prime, vals)) == 1
    ensures ReadCount(ReadTrace(addr, stored, len, prime, vals)) == |vals|
  {
    var t4 := PrimeTrace(addr, stored, len, prime);
    PrimeTraceProjections(addr, stored, len, prime);
    var t5 := t4 + [RequestFrom(stored, len)];
    Snoc(t4, RequestFrom(stored, len));
    assert ReadTrace(addr, stored, len, prime, vals) == t5 + Reads(vals);
    TraceAppend(t5, Reads(vals));
    ReadsProjections(vals);
  }

  /** The string `read` returns has `len` bytes; byte i is the low 8 bits of the i-th value read. */
  lemma ReadResultBytes(rxData: nat -> int, from: nat, len: nat)
    ensures |Truncated(Replies(rxData, from, len))| == len
    ensures forall i :: 0 <= i < len ==> Truncated(Replies(rxData, from, len))[i] == Low8(rxData(from + i))
  {
  }

  /** Ending a transmission after a begin and some writes uses the next status in line. */
  lemma EndCountBeforeEnd(t: seq<Event>, addr: int, buf: seq<byte>)
    ensures EndCount(t + [Begin(addr)] + Writes(buf)) == EndCount(t)
  {
    Snoc(t, Begin(addr));
    TraceAppend(t + [Begin(addr)], Writes(buf));
    WritesProjections(buf);
  }

  /** The transaction of `write`: address the slave, send the buffer, end with the stop flag,
      and report whether the status was 0. */
  method Transmit(bus: Bus, addr: int, buf: array<byte>, stop: bool) returns (ok: bool)
    modifies bus
    ensures bus.trace == old(bus.trace) + WriteTrace(addr, buf[..], stop)
    ensures ok == (bus.endStatus(EndCount(old(bus.trace))) == 0)
  {
    ghost var t0 := bus.trace;
    EndCountBeforeEnd(t0, addr, buf[..]);
    bus.BeginTransmission(addr);
    WriteBytes(bus, buf);
    var status := bus.EndTransmission(StopFlag(stop));
    ok := status == 0;
  }

  /** The values drained after the prime and the request are the next ones in line, and the
      whole trace is the read trace. */
  lemma ReadCountBeforeDrain(t: seq<Event>, head: seq<Event>, addr: int, stored: int, len: int, prime: seq<byte>, vals: seq<int>)
    requires head == PrimeTrace(addr, stored, len, prime) + [RequestFrom(stored, len)]
    ensures ReadCount(t + head) == ReadCount(t)
    ensures t + head + Reads(vals) == t + ReadTrace(addr, stored, len, prime, vals)
  {
    PrimeTraceProjections(addr, stored, len, prime);
    Snoc(PrimeTrace(addr, stored, len, prime), RequestFrom(stored, len));
    TraceAppend(t, head);
  }

  /** The priming transaction of `read`: address the slave at `addr`, request `len` bytes from
      `stored`, send the low 8 bits of each element of `params`, end without releasing the bus.
      The bytes are built in a buffer of their own, not in the result buffer. */
  method Prime(bus: Bus, addr: int, stored: int, len: int, params: seq<int>)
    modifies bus
    ensures bus.trace == old(bus.trace) + PrimeTrace(addr, stored, len, Truncated(params))
  {
    bus.BeginTransmission(addr);
    // src/i2c.cpp:84 assigns this buffer to the variable that holds the zeroed result buffer,
    // and line 86 passes `arylen` where `params` is meant. The model keeps the two buffers
    // apart and takes the elements of `params`.
    var buf := TruncateToBuffer(params);
    bus.RequestFrom(stored, len);
    WriteBytes(bus, buf);
    var _ := bus.EndTransmission(0);
  }

  /** Fills a zeroed buffer of `len` bytes with the low 8 bits of `len` successive read() calls. */
  method Drain(bus: Bus, len: nat) returns (bytes: seq<byte>)
    modifies bus
    ensures var vals := Replies(bus.rxData, ReadCount(old(bus.trace)), len);
      bus.trace == old(bus.trace) + Reads(vals) && bytes == Truncated(vals)
  {
    ghost var t0 := bus.trace;
    ghost var vals := Replies(bus.rxData, ReadCount(t0), len);
    var buf := new byte[len](_ => 0);
    var i := 0;
    while i < len
      invariant 0 <= i <= len
      invariant bus.trace == t0 + Reads(vals[..i])
      invariant buf[..i] == Truncated(vals[..i])
    {
      ReadCountAfterReads(t0, vals[..i]);
      var v := bus.Read();
      assert v == vals[i];
      buf[i] := Low8(v);
      assert buf[..i + 1] == buf[..i] + [Low8(vals[i])];
      assert vals[..i + 1][..i] == vals[..i];
      ReadsSnoc(t0, vals, i);
      i := i + 1;
    }
    assert buf[..] == buf[..i] && vals == vals[..i];
    bytes := buf[..];
  }

  /** One script-level `I2C` object: a pointer to the shared bus (null once freed) and a
      slave address, which is set to 0 when the object is made and never changed. */
  class Handle {
    var bus: Bus?
    var addr: int

    /** `I2C.new(id, params)`: both arguments are accepted and not used. */
    constructor (wire: Bus, id: int, params: Value)
      ensures bus == wire && addr == 0
    {
      bus := wire;
      addr := 0;
    }

    /** The garbage collector's free hook: nulls the bus pointer and nothing else. The shared
        bus itself is not shut down. */
    method Free()
      modifies this`bus
      ensures bus == null && addr == old(addr)
    {
      if bus != null {
        bus := null;
      }
    }

    /** `write(addr, data, stop = true)`: fails on a closed handle before touching the bus;
        otherwise coerces `data`, sends it to `addr` and returns whether endTransmission
        reported status 0. A failed transmission is a `false` result, not an error.
        `asString` stands for the interpreter's string conversion. src/i2c.cpp:113 declares
        `addr` as an `mrb_value` although it is parsed as an integer; here it is an integer. */
    method Write(asString: Stringify, addr: int, data: Value, stop: bool := true) returns (r: Result<bool>)
      modifies bus
      ensures r == Err(AlreadyClosed) <==> bus == null
      ensures bus != null && Coerced(data, asString).Err? ==>
        r == Err(Coerced(data, asString).error) && bus.trace == old(bus.trace)
      ensures bus != null && Coerced(data, asString).Ok? ==>
        bus.trace == old(bus.trace) + WriteTrace(addr, Coerced(data, asString).value, stop) &&
        r == Ok(bus.endStatus(EndCount(old(bus.trace))) == 0)
    {
      if bus == null {
        return Err(AlreadyClosed);
      }
      var b := bus;
      var coerced := ToBuffer(data, asString);
      if coerced.Err? {
        return Err(coerced.error);
      }
      var ok := Transmit(b, addr, coerced.value, stop);
      r := Ok(ok);
    }

    /** `read(addr, len, params)`: fails on a closed handle before touching the bus; otherwise
        primes the device with the bytes of `params` (also when `params` is empty), requests
        `len` bytes from the stored address and returns the `len` bytes read. The prime runs for
        every `params`, the empty array included, because the argument is always an array. */
    method Read(addr: int, len: int, params: seq<int>) returns (r: Result<seq<byte>>)
      requires bus != null ==> len >= 0
      modifies bus
      ensures r == Err(AlreadyClosed) <==> bus == null
      ensures bus != null ==>
        var vals := Replies(bus.rxData, ReadCount(old(bus.trace)), len);
        bus.trace == old(bus.trace) + ReadTrace(addr, this.addr, len, Truncated(params), vals) &&
        r == Ok(Truncated(vals))
    {
      if bus == null {
        return Err(AlreadyClosed);
      }
      var b := bus;
      ghost var t0 := b.trace;
      ghost var head := PrimeTrace(addr, this.addr, len, Truncated(params)) + [RequestFrom(this.addr, len)];
      ghost var vals := Replies(b.rxData, ReadCount(t0), len);
      ReadCountBeforeDrain(t0, head, addr, this.addr, len, Truncated(params), vals);
      Prime(b, addr, this.addr, len, params);
      b.RequestFrom(this.addr, len);
      assert b.trace == t0 + head;
      var bytes := Drain(b, len);
      r := Ok(bytes);
    }
  }
}
