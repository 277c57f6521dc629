/** Bytes, machine integers and their big-endian layout, shared by every layer. */
module Wire {

  type byte = x: int | 0 <= x < 0x100
  type u32 = x: int | 0 <= x < 0x1_0000_0000
  type i32 = x: int | -0x8000_0000 <= x < 0x8000_0000
  type u64 = x: int | 0 <= x < 0x1_0000_0000_0000_0000

  type i64 = x: int | -0x8000_0000_0000_0000 <= x < 0x8000_0000_0000_0000

  type Bytes = seq<byte>

  const TWO32: int := 0x1_0000_0000
  const TWO64: int := 0x1_0000_0000_0000_0000

  datatype Option<+T> = None | Some(value: T)

  datatype Result<+T, +E> = Ok(value: T) | Err(error: E) {
    predicate IsFailure() {
      Err?
    }

    function PropagateFailure<U>(): Result<U, E>
      requires Err?
    {
      Err(error)
    }

    function Extract(): T
      requires Ok?
    {
      value
    }
  }

  /** `wrapping_add(1)` on a 32-bit counter. */
  function WrapSucc(n: u32): u32 {
    (n + 1) % TWO32
  }

  /** The `i`-th value of a 32-bit counter that starts at `start` and wraps around. */
  function Nth(start: u32, i: nat): u32 {
    (start + i) % TWO32
  }

  lemma NthZero(start: u32)
    ensures Nth(start, 0) == start
  {
  }

  lemma NthNext(start: u32, i: nat)
    ensures WrapSucc(Nth(start, i)) == Nth(start, i + 1)
  {
  }

  /** Fewer than 2^32 values never repeat. */
  lemma NthDistinct(start: u32, i: nat, j: nat)
    requires i < TWO32 && j < TWO32 && Nth(start, i) == Nth(start, j)
    ensures i == j
  {
  }

  function PutU32(n: u32): (b: Bytes)
    ensures |b| == 4
  {
    var hi, lo := n / 0x1_0000, n % 0x1_0000;
    [hi / 0x100, hi % 0x100, lo / 0x100, lo % 0x100]
  }

  function GetU32(b: Bytes): u32
    requires |b| >= 4
  {
    var b0: int, b1: int, b2: int, b3: int := b[0], b[1], b[2], b[3];
    (b0 * 0x100 + b1) * 0x1_0000 + (b2 * 0x100 + b3)
  }

  function PutU64(n: u64): (b: Bytes)
    ensures |b| == 8
  {
    PutU32(n / TWO32) + PutU32(n % TWO32)
  }

  function GetU64(b: Bytes): u64
    requires |b| >= 8
  {
    var hi: int, lo: int := GetU32(b), GetU32(b[4..]);
    hi * TWO32 + lo
  }

  lemma GetPutU32(n: u32, rest: Bytes)
    ensures GetU32(PutU32(n) + rest) == n
  {
    var b := PutU32(n) + rest;
    assert b[0] == n / 0x1_0000 / 0x100 && b[1] == n / 0x1_0000 % 0x100;
    assert b[2] == n % 0x1_0000 / 0x100 && b[3] == n % 0x1_0000 % 0x100;
  }

  lemma PutGetU32(b: Bytes)
    requires |b| >= 4
    ensures PutU32(GetU32(b)) == b[..4]
  {
    var hi: int, lo: int := b[0] as int * 0x100 + b[1], b[2] as int * 0x100 + b[3];
    assert GetU32(b) / 0x1_0000 == hi && GetU32(b) % 0x1_0000 == lo;
    assert PutU32(GetU32(b)) == [hi / 0x100, hi % 0x100, lo / 0x100, lo % 0x100];
  }

  lemma GetPutU64(n: u64, rest: Bytes)
    ensures GetU64(PutU64(n) + rest) == n
  {
    GetPutU32(n / TWO32, PutU32(n % TWO32) + rest);
    GetPutU32(n % TWO32, rest);
    assert PutU64(n) + rest == PutU32(n / TWO32) + (PutU32(n % TWO32) + rest);
    assert (PutU64(n) + rest)[4..] == PutU32(n % TWO32) + rest;
  }

  lemma PutGetU64(b: Bytes)
    requires |b| >= 8
    ensures PutU64(GetU64(b)) == b[..8]
  {
    hide PutU32, GetU32;
    var hi: int, lo: int := GetU32(b), GetU32(b[4..]);
    assert GetU64(b) / TWO32 == hi && GetU64(b) % TWO32 == lo;
    PutGetU32(b);
    PutGetU32(b[4..]);
    assert b[..8] == b[..4] + b[4..][..4];
  }

  /** Two's complement of a value of `bits` width: how `put_i32`/`put_i64` lay out a sign. */
  function ToU32(n: int): u32 {
    n % TWO32
  }

  function ToI32(n: int): i32 {
    var m := n % TWO32;
    if m < 0x8000_0000 then m else m - TWO32
  }

  function ToU64(n: int): u64 {
    n % TWO64
  }

  function ToI64(n: int): int {
    var m := n % TWO64;
    if m < 0x8000_0000_0000_0000 then m else m - TWO64
  }

  lemma Assoc<T>(a: seq<T>, b: seq<T>, c: seq<T>)
    ensures a + b + c == a + (b + c)
  {
  }

  lemma HeadTail<T>(s: seq<T>)
    requires s != []
    ensures [s[0]] + s[1..] == s
  {
  }

  lemma ConsTail<T>(x: T, s: seq<T>)
    ensures ([x] + s)[0] == x && ([x] + s)[1..] == s
  {
  }

  /** A strict prefix of a concatenation ends inside the first part, or after it. */
  lemma PrefixSplit<T>(a: seq<T>, b: seq<T>, cut: seq<T>) returns (more: seq<T>)
    requires cut < a + b
    ensures |cut| < |a| ==> cut < a
    ensures |cut| >= |a| ==> cut == a + more && more < b
  {
    more := if |cut| >= |a| then cut[|a|..] else [];
  }

  /** Pieces, one after the other. */
  function Join(pieces: seq<Bytes>): Bytes {
    if pieces == [] then [] else pieces[0] + Join(pieces[1..])
  }

  /** `n` zero bytes. */
  function Zeros(n: nat): (b: Bytes)
    ensures |b| == n
  {
    seq(n, _ => 0)
  }
}
