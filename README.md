# I2C binding for mruby, modelled in Dafny

The repository binds one hardware I2C bus (the Arduino `TwoWire` driver, `Wire`) to mruby as
the class `I2C`. A script makes a handle with `I2C.new`, sends bytes with
`write(addr, data, stop = true)` and reads a fixed number of bytes with
`read(addr, len, params)`. This project models the binding layer of `src/i2c.cpp`:

- the handle (`I2C.Handle`): a pointer to the shared bus, null once the garbage collector's
  free hook has run, and a stored slave address that is always 0;
- the coercion of a script value into the bytes `write` sends (`Coercion`): a String is sent
  verbatim, an Array of integers and a single integer by their low 8 bits, anything else
  through its string conversion;
- the transactions (`I2C.Handle.Write`, `I2C.Handle.Read`) over a mock driver (`TwoWire.Bus`)
  that records every call in a trace. The status of the k-th `endTransmission` and the value of
  the k-th `read()` are functions given when the mock is made.

Modules: `Errors` (the error and result types), `Bytes` (the `uint8_t` cast), `Coercion`,
`TwoWire` (events, trace projections, the mock), `I2C` (the handle and the transaction
traces) and `Scenarios` (whole calls on a fresh bus).

What is proved: the bytes each kind of value is coerced to; that the buffer-filling loops
compute exactly those bytes; the exact trace of a write (`Begin(addr)`, one `Write` per byte in
order, `End(1)` or `End(0)`) and of a read (the prime, then `RequestFrom(stored, len)` and `len`
reads); that `write` returns `true` exactly when the status is 0; that the string `read`
returns has `len` bytes whose i-th byte is the low 8 bits of the i-th value read; that every
`requestFrom` uses the stored address while only `beginTransmission` uses the caller's; and
that a freed handle fails with `AlreadyClosed` and records nothing, while another handle on the
same bus keeps working.

## Divergences from the source

The model follows the code where the code is well defined, and the evidently intended behaviour
where it is not:

- `read` always runs the priming transaction. `params` is parsed with the `A` format
  (src/i2c.cpp:74), so the `mrb_array_p` test at line 80 is always true, also for an empty
  array. The prime sends the `params` bytes once, between the first `requestFrom` and
  `endTransmission(0)` (src/i2c.cpp:81-93).
- The priming bytes live in a buffer of their own. The source overwrites the `len`-byte result
  buffer with an `arylen`-byte one (line 84), leaking the first, and then fills and copies
  `len` bytes from it (lines 100 and 103). The model's result buffer has `len` bytes.
- The priming bytes are the elements of `params`. Line 86 passes `arylen` to `mrb_ary_ref`
  where `params` is meant.
- In `write`, `addr` is declared `mrb_value` (line 113) but parsed with `i` (line 124); it is an
  integer here.
- Each result byte of `read` is the low 8 bits of whatever `read()` returned (line 100); bytes
  the device did not deliver are not left at zero, because the loop overwrites every byte. What
  `read()` returns when nothing is available is up to the driver, here the mock's `rxData`.

## Model

| member | source | states |
|---|---|---|
| `Bytes.Low8` | src/i2c.cpp:135-141 | the `(uint8_t)` and `(char)` casts (also at lines 86 and 100) give a byte congruent to the integer modulo 256 |
| `Bytes.Low8Properties` | src/i2c.cpp:135-141 | the `uint8_t` cast keeps values 0..255, ignores multiples of 256 and maps -1 to 0xFF |
| `Bytes.Truncated` | src/i2c.cpp:132-136 | the element-wise cast has one byte per element, byte i being the low 8 bits of element i |
| `Coercion.Coerced` | src/i2c.cpp:126-148 | the four-way dispatch fails exactly when the value is some other object whose string conversion fails, and then with `ConversionFailed`; an Array keeps its length and an integer gives one byte |
| `Coercion.CoercedString` | src/i2c.cpp:126-130 | a String is coerced to exactly its bytes, same length, same order |
| `Coercion.CoercedArray` | src/i2c.cpp:131-137 | an Array gives a buffer of its length whose byte i is the low 8 bits of element i |
| `Coercion.CoercedInteger` | src/i2c.cpp:138-142 | an integer gives a 1-byte buffer holding its low 8 bits (the integer itself when it fits) |
| `Coercion.CoercedOther` | src/i2c.cpp:143-148 | any other value is sent as its string conversion; only that conversion can fail, and its failure becomes `ConversionFailed` |
| `Coercion.CoercedExamples` | src/i2c.cpp:126-142 | [10, 20, 300] becomes [10, 20, 44], 65 becomes [65], "AB" stays [0x41, 0x42] |
| `Coercion.TruncateToBuffer` | src/i2c.cpp:132-136 | the fill loop yields a buffer of the array's length holding the truncated elements |
| `Coercion.CopyToBuffer` | src/i2c.cpp:127-129 | the allocated buffer holds a copy of the string's bytes |
| `Coercion.ToBuffer` | src/i2c.cpp:126-148 | the buffer `write` builds holds exactly the coerced bytes, or the conversion error is returned |
| `TwoWire.WritesAt` | src/i2c.cpp:153-155 | event k of a run of writes sends byte k |
| `TwoWire.ReadsAt` | src/i2c.cpp:98-102 | event k of a run of reads records the k-th value read |
| `TwoWire.WritesProjections` | src/i2c.cpp:153-155 | a run of writes puts exactly its buffer on the wire and neither reads nor ends a transmission |
| `TwoWire.ReadsProjections` | src/i2c.cpp:98-102 | a run of n reads counts n reads and writes nothing |
| `TwoWire.Bus.BeginTransmission` | src/i2c.cpp:151 | records `Begin(addr)` with the address it is given (also line 81) |
| `TwoWire.Bus.WriteByte` | src/i2c.cpp:154 | records `Write(b)` for the byte it is given (also line 91) |
| `TwoWire.Bus.RequestFrom` | src/i2c.cpp:97 | records `RequestFrom(addr, count)` with the address and count it is given (also line 89) |
| `TwoWire.Bus.EndTransmission` | src/i2c.cpp:156 | records `End(stop)` and returns the status in line for this transmission |
| `TwoWire.Bus.Read` | src/i2c.cpp:100 | records the value read, which is the next one the device delivers |
| `TwoWire.WriteBytes` | src/i2c.cpp:153-155 | the write loop appends one `Write` event per buffer byte, in order |
| `I2C.WriteTrace` | src/i2c.cpp:151-156 | the write's call sequence has `len + 2` events, opens with `Begin(addr)` and closes with `End(stop ? 1 : 0)` |
| `I2C.PrimeTrace` | src/i2c.cpp:81-93 | the prime has one event per `params` byte plus three, opens with `Begin(addr)`, `RequestFrom(stored, len)` and closes with `End(0)` |
| `I2C.ReadTrace` | src/i2c.cpp:81-102 | the read's call sequence has the prime's events, then `RequestFrom(stored, len)`, then one event per value read |
| `I2C.WriteTraceShape` | src/i2c.cpp:150-157 | the write trace is `Begin(addr)`, `Write(buf[0])` .. `Write(buf[len-1])`, `End(stop ? 1 : 0)` |
| `I2C.WriteTraceProjections` | src/i2c.cpp:150-157 | a write puts exactly its buffer on the wire, ends one transmission and reads nothing |
| `I2C.Transmit` | src/i2c.cpp:150-161 | appends the write trace and returns true iff the transmission's status is 0 |
| `I2C.Prime` | src/i2c.cpp:80-94 | appends the priming trace built from the truncated `params` |
| `I2C.PrimeTraceProjections` | src/i2c.cpp:80-94 | the prime writes the `params` bytes once, ends one transmission and reads nothing |
| `I2C.Drain` | src/i2c.cpp:97-103 | appends `len` reads and returns the `len` low bytes of the values read, in order |
| `I2C.ReadTraceShape` | src/i2c.cpp:79-102 | the read trace event by event: `Begin(addr)`, `RequestFrom(stored, len)`, the prime bytes, `End(0)`, `RequestFrom(stored, len)`, then the reads |
| `I2C.ReadTraceAddresses` | src/i2c.cpp:81-97 | every `requestFrom` of a read uses the stored address and `len`; `beginTransmission` uses the caller's address |
| `I2C.ReadTraceProjections` | src/i2c.cpp:79-102 | a read writes the prime bytes, ends one transmission and reads once per result byte |
| `I2C.ReadResultBytes` | src/i2c.cpp:97-103 | the string returned has `len` bytes; byte i is the low 8 bits of the i-th value read |
| `I2C.Handle.constructor` | src/i2c.cpp:49-57 | a new handle points at the shared bus and has address 0 |
| `I2C.Handle.Free` | src/i2c.cpp:26-36 | freeing nulls the bus pointer and leaves the address alone |
| `I2C.Handle.Write` | src/i2c.cpp:110-162 | `AlreadyClosed` exactly when the handle is closed, and then no bus touched; failed conversion: that error, no events; otherwise the exact write trace and `true` iff the status is 0 |
| `I2C.Handle.Read` | src/i2c.cpp:62-107 | `AlreadyClosed` exactly when the handle is closed, for any `len`, and then no bus touched; otherwise the exact read trace on the stored address and the `len` low bytes of the values read |
| `Scenarios.Loopback` | src/i2c.cpp:62-162 | writing [1, 2, 3] with the default stop to a device that answers 1, 2, 3 returns true, reads back [1, 2, 3], and records the twelve events listed |
| `Scenarios.SharedBus` | src/i2c.cpp:26-161 | after one of two handles on a bus is freed, its write and a read with `len` -1 fail with `AlreadyClosed` and record nothing; the other still writes, and a nonzero status gives false |

## Left out

- The `NO_DEVICE` build (src/i2c.cpp:51-52 and the `#ifndef NO_DEVICE` blocks): there the handle
  has no bus, `ret` is used uninitialised (lines 117, 161) and the result of `write` is
  undefined. Only the device build is modelled.
- mruby machinery: argument parsing with `mrb_get_args`, `mrb_data_init` and the data type
  registration, class and method definition in the gem's init and final functions, and building
  the result with `mrb_str_new`. Arguments arrive parsed and typed; the result is a byte
  sequence.
- The physical driver and `Wire.begin()` at gem initialisation (src/i2c.cpp:170); the mock bus
  replaces them. The counts returned by the driver's `write` and `requestFrom` are ignored by the
  source and not modelled, nor is the driver's own truncation of addresses to 7 bits.
- `mrb_obj_as_string` (src/i2c.cpp:144) is a caller-supplied function from an object reference
  to bytes, or to nothing when the conversion raises; the exception itself is reported as
  `ConversionFailed`. It is assumed to have no effects: a script's own `to_s` could run
  arbitrary code, even use the bus, and the exact write trace and "a failed conversion records
  no events" hold only under that assumption.
- Memory: `mrb_malloc`/`mrb_free` accounting, allocation failure, the leak at line 84 and the
  release of the handle's own memory at line 35.
- Array elements that are not integers: line 135 applies `mrb_fixnum` without checking, so the
  `Ary` variant holds integers only.
- The width of `mrb_int`: integers are unbounded; the low 8 bits of a value do not depend on it.
- I2C.Handle.Read: requires `len >= 0` on an open handle only; there a negative `len` reaches
  `mrb_malloc` as a huge size, an allocation failure left out under memory above. A closed
  handle fails with `AlreadyClosed` for every `len`, since the check (line 71) precedes parsing.
- Concurrency: several handles share the global `Wire` without mutual exclusion; calls are
  modelled one at a time.
