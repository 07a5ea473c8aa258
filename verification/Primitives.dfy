/** Error kinds, results, machine integers and little-endian fields shared by every component. */
module Primitives {

  const U32_LIMIT: int := 0x1_0000_0000
  const U64_LIMIT: int := 0x1_0000_0000_0000_0000

  type byte = b: int | 0 <= b < 256
  type u64 = n: int | 0 <= n < U64_LIMIT

  /** Bytes that can exist in a file or in memory. */
  type FileBytes = s: seq<byte> | |s| < U64_LIMIT

  /** The kind of an error; messages are not modelled. */
  datatype ErrorKind =
    | Truncated
    | NotXisf
    | BadHeader
    | BadAttribute
    | Unsupported
    | CompressionFailed
    | ChecksumMismatch
    | NotFound
    | InvalidArgument
    | Io

  datatype Option<+T> = None | Some(value: T) {
    predicate IsFailure() { None? }

    function PropagateFailure<U>(): Option<U>
      requires None?
    {
      None
    }

    function Extract(): T
      requires Some?
    {
      value
    }

    function GetOr(default: T): T { if Some? then value else default }
  }

  datatype Result<+T> = Ok(value: T) | Err(kind: ErrorKind) {
    predicate IsFailure() { Err? }

    function PropagateFailure<U>(): Result<U>
      requires Err?
    {
      Err(kind)
    }

    function Extract(): T
      requires Ok?
    {
      value
    }
  }

  function Min(a: int, b: int): int { if a <= b then a else b }

  function Max(a: int, b: int): int { if a <= b then b else a }

  function Power(base: nat, exponent: nat): nat
  {
    if exponent == 0 then 1 else base * Power(base, exponent - 1)
  }

  lemma {:induction false} PowerPositive(base: nat, exponent: nat)
    requires base > 0
    ensures Power(base, exponent) > 0
  {
    if exponent > 0 {
      PowerPositive(base, exponent - 1);
    }
  }

  lemma {:induction false} SubSlice<T>(s: seq<T>, a: nat, b: nat, i: nat, j: nat)
    requires i <= j && a + j <= b <= |s|
    ensures s[a..b][i..j] == s[a + i..a + j]
  {
    var x, y := s[a..b][i..j], s[a + i..a + j];
    assert forall k :: 0 <= k < j - i ==> x[k] == s[a + i + k] == y[k];
  }

  /** Runs of bytes laid end to end. */
  function Concat(parts: seq<seq<byte>>): seq<byte>
  {
    if parts == [] then [] else parts[0] + Concat(parts[1..])
  }

  lemma {:induction false} ConcatSplit(parts: seq<seq<byte>>, i: nat)
    requires i <= |parts|
    ensures Concat(parts) == Concat(parts[..i]) + Concat(parts[i..])
  {
    if i == 0 {
      assert parts[0..] == parts;
    } else {
      ConcatSplit(parts[1..], i - 1);
      assert parts[..i][1..] == parts[1..][..i - 1] && parts[1..][i - 1..] == parts[i..];
    }
  }

  lemma {:induction false} ConcatNext(parts: seq<seq<byte>>, i: nat)
    requires i < |parts|
    ensures Concat(parts[..i + 1]) == Concat(parts[..i]) + parts[i]
  {
    var one := [parts[i]];
    ConcatSplit(parts[..i + 1], i);
    assert parts[..i + 1][..i] == parts[..i] && parts[..i + 1][i..] == one;
    assert one[1..] == [];
    assert Concat(one) == one[0] + Concat([]);
  }

  /** Each run stands after those before it. */
  lemma {:induction false} ConcatSlice(parts: seq<seq<byte>>, i: nat)
    requires i < |parts|
    ensures |Concat(parts[..i])| + |parts[i]| <= |Concat(parts)|
    ensures Concat(parts)[|Concat(parts[..i])|..|Concat(parts[..i])| + |parts[i]|] == parts[i]
  {
    hide Concat;
    ConcatNext(parts, i);
    ConcatSplit(parts, i + 1);
    var before, after := Concat(parts[..i]), Concat(parts[i + 1..]);
    assert (before + parts[i] + after)[|before|..|before| + |parts[i]|] == parts[i];
  }

  /** The number a run of bytes denotes, least significant byte first. */
  function LeValue(bytes: seq<byte>): nat
  {
    if bytes == [] then 0 else bytes[0] + 256 * LeValue(bytes[1..])
  }

  /** The low `width` bytes of a number, least significant byte first. */
  function LeBytes(n: nat, width: nat): (bytes: seq<byte>)
    ensures |bytes| == width
  {
    if width == 0 then [] else [n % 256] + LeBytes(n / 256, width - 1)
  }

  lemma {:induction false} LeValueOfBytes(n: nat, width: nat)
    requires n < Power(256, width)
    ensures LeValue(LeBytes(n, width)) == n
  {
    if width > 0 {
      assert n / 256 < Power(256, width - 1);
      LeValueOfBytes(n / 256, width - 1);
      assert LeBytes(n, width)[1..] == LeBytes(n / 256, width - 1);
    }
  }

  lemma {:induction false} LeValueBound(bytes: seq<byte>)
    ensures LeValue(bytes) < Power(256, |bytes|)
  {
    if bytes != [] {
      LeValueBound(bytes[1..]);
    }
  }

  /** A field's bytes are those of its value. */
  lemma {:induction false} LeBytesBack(bytes: seq<byte>)
    ensures LeBytes(LeValue(bytes), |bytes|) == bytes
  {
    if bytes != [] {
      LeBytesBack(bytes[1..]);
      LowByte(bytes[0], LeValue(bytes[1..]));
      assert bytes == [bytes[0]] + bytes[1..];
    }
  }

  lemma {:induction false} LowByte(low: byte, rest: nat)
    ensures (low + 256 * rest) % 256 == low && (low + 256 * rest) / 256 == rest
  {
    assert low + 256 * rest == 256 * rest + low;
  }

  lemma {:induction false} FieldWidths()
    ensures Power(256, 4) == U32_LIMIT
    ensures Power(256, 8) == U64_LIMIT
  {
    assert Power(256, 4) == 256 * (256 * (256 * (256 * Power(256, 0))));
    assert Power(256, 8) == 256 * (256 * (256 * (256 * Power(256, 4))));
  }

  /** A result with something before it, if there is one. */
  function Prefixed<T>(head: seq<T>, tail: Result<seq<T>>): Result<seq<T>>
  {
    if tail.Ok? then Ok(head + tail.value) else tail
  }

  lemma {:induction false} PrefixedNothing<T>(tail: Result<seq<T>>)
    ensures Prefixed([], tail) == tail
  {
    assert tail.Ok? ==> [] + tail.value == tail.value;
  }

  lemma {:induction false} PrefixedTwice<T>(a: seq<T>, b: seq<T>, tail: Result<seq<T>>)
    ensures Prefixed(a, Prefixed(b, tail)) == Prefixed(a + b, tail)
  {
    assert tail.Ok? ==> a + (b + tail.value) == a + b + tail.value;
  }
}
