/** The four-way coercion of a script value into the byte buffer that `write` sends. */
module Coercion {
  import opened Errors
  import opened Bytes

  /** A script value as the binding classifies it: a String (its raw bytes), an Array of
      integers, a single integer, or any other object, named by an interpreter reference. */
  datatype Value =
    | Str(bytes: seq<byte>)
    | Ary(elems: seq<int>)
    | Int(n: int)
    | Other(obj: nat)

  /** The interpreter's string conversion of an object (`to_s`); None when it raises. */
  type Stringify = nat -> Option<seq<byte>>

  /** The bytes `write` sends for `data`: tested in the order String, Array, integer, other.
      Only the string conversion can fail, and its failure is ConversionFailed. */
  function Coerced(data: Value, asString: Stringify): (r: Result<seq<byte>>)
    ensures r.Err? <==> data.Other? && asString(data.obj).None?
    ensures r.Err? ==> r.error == ConversionFailed
    ensures data.Ary? ==> |r.value| == |data.elems|
    ensures data.Int? ==> |r.value| == 1
  {
    match data
    case Str(s) => Ok(s)
    case Ary(xs) => Ok(Truncated(xs))
    case Int(n) => Ok([Low8(n)])
    case Other(o) =>
      match asString(o)
      case Some(s) => Ok(s)
      case None => Err(ConversionFailed)
  }

  /** A String is sent as exactly its bytes, in order. */
  lemma CoercedString(s: seq<byte>, asString: Stringify)
    ensures Coerced(Str(s), asString).Ok?
    ensures var buf := Coerced(Str(s), asString).value;
      |buf| == |s| && forall i :: 0 <= i < |s| ==> buf[i] == s[i]
  {
  }

  /** An Array gives one byte per element, the element's low 8 bits, in order. */
  lemma CoercedArray(xs: seq<int>, asString: Stringify)
    ensures Coerced(Ary(xs), asString).Ok?
    ensures var buf := Coerced(Ary(xs), asString).value;
      |buf| == |xs| && forall i :: 0 <= i < |xs| ==> buf[i] == Low8(xs[i])
  {
  }

  /** An integer gives a single byte holding its low 8 bits. */
  lemma CoercedInteger(n: int, asString: Stringify)
    ensures Coerced(Int(n), asString) == Ok([Low8(n)])
    ensures 0 <= n < 256 ==> Coerced(Int(n), asString).value[0] as int == n
  {
  }

  /** Any other object is sent as its string conversion; a failed conversion is propagated,
      never replaced by an empty buffer. Only this variant can fail. */
  lemma CoercedOther(data: Value, asString: Stringify)
    ensures Coerced(data, asString).Err? ==> data.Other? && asString(data.obj).None?
    ensures data.Other? && asString(data.obj).Some? ==> Coerced(data, asString) == Ok(asString(data.obj).value)
    ensures data.Other? && asString(data.obj).None? ==> Coerced(data, asString) == Err(ConversionFailed)
  {
  }

  /** The worked cases: [10, 20, 300] becomes [10, 20, 44], 65 becomes [65], "AB" stays [0x41, 0x42]. */
  lemma {:induction false} CoercedExamples(asString: Stringify)
    ensures Coerced(Ary([10, 20, 300]), asString) == Ok([10, 20, 44])
    ensures Coerced(Int(65), asString) == Ok([65])
    ensures Coerced(Str([0x41, 0x42]), asString) == Ok([0x41, 0x42])
  {
    var buf := Truncated([10, 20, 300]);
    assert |buf| == 3 && buf[0] == 10 && buf[1] == 20 && buf[2] == 44;
    assert buf == [10, 20, 44];
  }

  /** Allocates a buffer of |xs| bytes and fills it element by element with each low 8 bits. */
  method TruncateToBuffer(xs: seq<int>) returns (buf: array<byte>)
    ensures buf.Length == |xs|
    ensures buf[..] == Truncated(xs)
  {
    buf := new byte[|xs|];
    var i := 0;
    while i < |xs|
      invariant 0 <= i <= |xs|
      invariant forall k :: 0 <= k < i ==> buf[k] == Low8(xs[k])
    {
      buf[i] := Low8(xs[i]);
      i := i + 1;
    }
  }

  /** Allocates a buffer holding a copy of `s`, as `mrb_malloc` followed by `memcpy` does. */
  method CopyToBuffer(s: seq<byte>) returns (buf: array<byte>)
    ensures buf[..] == s
  {
    buf := new byte[|s|](i requires 0 <= i < |s| => s[i]);
  }

  /** Builds the buffer `write` transmits; it holds exactly the bytes of Coerced, or the
      conversion error is returned. */
  method ToBuffer(data: Value, asString: Stringify) returns (r: Result<array<byte>>)
    ensures r.Ok? ==> Coerced(data, asString) == Ok(r.value[..])
    ensures r.Err? ==> Coerced(data, asString) == Err(r.error)
  {
    match data
    case Str(s) =>
      var buf := CopyToBuffer(s);
      r := Ok(buf);
    case Ary(xs) =>
      var buf := TruncateToBuffer(xs);
      r := Ok(buf);
    case Int(n) =>
      var buf := new byte[1];
      buf[0] := Low8(n);
      assert buf[..] == [Low8(n)];
      r := Ok(buf);
    case Other(o) =>
      match asString(o)
      case Some(s) =>
        var buf := CopyToBuffer(s);
        r := Ok(buf);
      case None =>
        r := Err(ConversionFailed);
  }
}
