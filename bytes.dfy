/** Machine integers, the error-carrying result type, and the one buffer
    operation every encoder is specified with. */
module Bytes {

  /** Rust `u8`, `u16` and `u32`: integers in their unsigned ranges. */
  type u8 = x: int | 0 <= x < 0x100
  type u16 = x: int | 0 <= x < 0x1_0000
  type u32 = x: int | 0 <= x < 0x1_0000_0000

  /** Rust's `Result`; `IsFailure`, `PropagateFailure` and `Extract` make
      `:-` behave like Rust's `?`. */
  datatype Result<+T, +E> = Ok(value: T) | Err(error: E) {
    predicate IsFailure() {
      Err?
    }

    function PropagateFailure<U>(): Result<U, E>
      requires Err?
    {
      Err(error)
    }

    function Extract(): T
      requires Ok?
    {
      value
    }
  }

  function Min(a: int, b: int): int {
    if a <= b then a else b
  }

  /** The buffer `s` after `bytes` are written into it from index `off` on:
      every index outside `off .. off + |bytes|` keeps its old byte. */
  function Splice(s: seq<u8>, off: nat, bytes: seq<u8>): (r: seq<u8>)
    requires off + |bytes| <= |s|
    ensures |r| == |s|
    ensures forall i :: 0 <= i < |s| ==>
              r[i] == if off <= i < off + |bytes| then bytes[i - off] else s[i]
  {
    s[..off] + bytes + s[off + |bytes|..]
  }

  /** Writing `a` and then, right after it, `b` is writing `a + b`. */
  lemma SpliceTwice(s: seq<u8>, off: nat, a: seq<u8>, b: seq<u8>)
    requires off + |a| + |b| <= |s|
    ensures Splice(Splice(s, off, a), off + |a|, b) == Splice(s, off, a + b)
  {
    var l, r := Splice(Splice(s, off, a), off + |a|, b), Splice(s, off, a + b);
    assert |l| == |r|;
    forall i | 0 <= i < |s| ensures l[i] == r[i] {
    }
  }

  /** Concatenation is associative, stated for the two shapes the stream
      proofs need: a head element before a join, and one after it. */
  lemma ConsAppend<T>(x: T, a: seq<T>, b: seq<T>)
    ensures [x] + (a + b) == ([x] + a) + b
  {
  }

  lemma AppendCons<T>(a: seq<T>, x: T, b: seq<T>)
    ensures a + ([x] + b) == (a + [x]) + b
  {
  }
}
