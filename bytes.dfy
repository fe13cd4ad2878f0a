/**
 * Big-endian primitive reads over an immutable byte buffer, the part of
 * java.io.DataInputStream that the class-file decoder relies on.
 *
 * A decoder never mutates the buffer: it is given the whole input `b` and a
 * position `p`, and on success returns the decoded value together with the
 * position just after it (`Parsed`). Every read checks that enough bytes
 * remain; a short read is the `Truncated` failure (EOFException in Java).
 */
module Bytes {

  /** An unsigned byte as read by readUnsignedByte. */
  type byte = x: int | 0 <= x < 0x100
  type u8 = byte
  type u16 = x: int | 0 <= x < 0x1_0000

  /** The ways a decode can fail. The Java code throws IOException,
      EOFException, ClassFormatError, NullPointerException or an
      index-out-of-bounds exception; none of them is caught inside the core,
      so they are collapsed into one failure value carrying a kind. */
  datatype Failure =
    | Truncated     // input ended before an expected field
    | BadTag        // unknown pool tag, frame type, verification tag or element-value tag
    | BadLength     // Code length out of range, negative attribute length
    | BadReference  // attribute name index that is not a UTF8 pool slot
    | BadMagic      // first four bytes are not 0xCAFEBABE
    | TrailingData  // bytes left after the last top-level attribute

  datatype Result<T> = Ok(value: T) | Err(failure: Failure)

  datatype Option<T> = None | Some(value: T)

  /** A decoded value and the position just after its encoding. */
  datatype Parsed<T> = Parsed(value: T, next: nat)

  /** A decoder for values of type T: from the input and a start position. */
  type Parser<T> = (seq<byte>, nat) -> Result<Parsed<T>>

  /** Decoding progress: a successful read never ends before it started,
      and a read that consumed anything ends inside the input. (An empty list
      consumes nothing, wherever it starts.) */
  predicate Within<T>(b: seq<byte>, p: nat, r: Result<Parsed<T>>)
  {
    r.Ok? ==> p <= r.value.next && (r.value.next == p || r.value.next <= |b|)
  }

  /** The value of a successful read transformed by `f`; the position is
      unchanged. */
  function MapValue<T, U>(r: Result<Parsed<T>>, f: T -> U): (r': Result<Parsed<U>>)
    ensures r'.Ok? == r.Ok?
    ensures r.Ok? ==> r'.value == Parsed(f(r.value.value), r.value.next)
    ensures r.Err? ==> r'.failure == r.failure
  {
    match r
    case Ok(Parsed(x, q)) => Ok(Parsed(f(x), q))
    case Err(e) => Err(e)
  }

  function U1(b: seq<byte>, p: nat): u8
    requires p < |b|
  {
    b[p]
  }

  function U2(b: seq<byte>, p: nat): u16
    requires p + 2 <= |b|
  {
    b[p] as int * 0x100 + b[p + 1] as int
  }

  /** The unsigned value of four big-endian bytes. */
  function U4(b: seq<byte>, p: nat): (r: nat)
    requires p + 4 <= |b|
    ensures r < 0x1_0000_0000
  {
    U2(b, p) * 0x1_0000 + U2(b, p + 2)
  }

  /** DataInputStream.readInt: four bytes read as a two's-complement int. */
  function S4(b: seq<byte>, p: nat): (r: int)
    requires p + 4 <= |b|
    ensures -0x8000_0000 <= r < 0x8000_0000
    ensures r < 0 <==> b[p] >= 0x80
    ensures r >= 0 ==> r == U4(b, p)
  {
    var u := U4(b, p);
    if u >= 0x8000_0000 then u - 0x1_0000_0000 else u
  }

  /** readUnsignedShort as a decoder. */
  function ParseU2(b: seq<byte>, p: nat): (r: Result<Parsed<u16>>)
    ensures r.Ok? <==> p + 2 <= |b|
    ensures r.Ok? ==> r.value.next == p + 2 && r.value.value == b[p] as int * 256 + b[p + 1] as int
    ensures r.Err? ==> r.failure == Truncated
  {
    if p + 2 <= |b| then Ok(Parsed(U2(b, p), p + 2)) else Err(Truncated)
  }

  /** readUTF (and the UTF8 pool payload): a u2 length followed by that many
      bytes. The modified UTF-8 contents are kept as raw bytes. */
  function ParseUtf(b: seq<byte>, p: nat): (r: Result<Parsed<seq<byte>>>)
    ensures r.Ok? <==> p + 2 <= |b| && p + 2 + U2(b, p) <= |b|
    ensures r.Ok? ==> (r.value.value == b[p + 2..p + 2 + U2(b, p)] &&
                       r.value.next == p + 2 + U2(b, p))
    ensures r.Err? ==> r.failure == Truncated
  {
    if p + 2 <= |b| && p + 2 + U2(b, p) <= |b| then
      Ok(Parsed(b[p + 2..p + 2 + U2(b, p)], p + 2 + U2(b, p)))
    else
      Err(Truncated)
  }

  /** `n` raw bytes (stream.read into a byte[n], with the bytes all present). */
  function ParseBytes(b: seq<byte>, p: nat, n: nat): (r: Result<Parsed<seq<byte>>>)
    ensures r.Ok? <==> p + n <= |b|
    ensures r.Ok? ==> r.value.value == b[p..p + n] && r.value.next == p + n
    ensures r.Err? ==> r.failure == Truncated
  {
    if p + n <= |b| then Ok(Parsed(b[p..p + n], p + n)) else Err(Truncated)
  }

  /** ASCII bytes of a string literal (attribute names, reserved method names). */
  function Ascii(s: string): (r: seq<byte>)
    ensures |r| == |s|
  {
    seq(|s|, i requires 0 <= i < |s| => s[i] as int % 0x100)
  }

  // ---------------------------------------------------------------------
  // Counted sequences: `n` values read one after the other.

  /** `n` consecutive values decoded by `f`. It is defined from the back
      (the first n-1 values, then one more), which is the order in which the
      Java loops fill their `new X[n]` arrays. */
  function ParseSeq<T>(b: seq<byte>, p: nat, n: nat, f: Parser<T>): (r: Result<Parsed<seq<T>>>)
    ensures r.Ok? ==> |r.value.value| == n
    ensures Advancing(f) ==> Within(b, p, r)
    decreases n
  {
    if n == 0 then Ok(Parsed([], p))
    else
      match ParseSeq(b, p, n - 1, f)
      case Err(e) => Err(e)
      case Ok(Parsed(xs, q)) =>
        match f(b, q)
        case Err(e) => Err(e)
        case Ok(Parsed(x, q')) => Ok(Parsed(xs + [x], q'))
  }

  /** A u2 count followed by that many values decoded by `f`. */
  function ParseCounted<T>(b: seq<byte>, p: nat, f: Parser<T>): (r: Result<Parsed<seq<T>>>)
    ensures r.Ok? ==> p + 2 <= |b| && |r.value.value| == U2(b, p)
    ensures Advancing(f) ==> Within(b, p, r)
  {
    if p + 2 <= |b| then ParseSeq(b, p + 2, U2(b, p), f) else Err(Truncated)
  }

  /** Every value `f` decodes lies inside the input, after its start. */
  ghost predicate Advancing<T>(f: Parser<T>)
  {
    forall b, p :: Within(b, p, f(b, p))
  }

  /** Once a prefix of the list fails, the whole list fails the same way:
      the Java loop stops at the first element that throws. */
  lemma {:induction false} ParseSeqErrPersists<T>(b: seq<byte>, p: nat, k: nat, n: nat, f: Parser<T>)
    requires k <= n
    requires ParseSeq(b, p, k, f).Err?
    ensures ParseSeq(b, p, n, f) == ParseSeq(b, p, k, f)
    decreases n - k
  {
    if k < n {
      ParseSeqErrPersists(b, p, k, n - 1, f);
    }
  }

  /** Values decoded by a fixed-width decoder take exactly `w` bytes each, so
      a list of `n` of them takes `n * w` bytes. */
  lemma {:induction false} ParseSeqFixedWidth<T>(b: seq<byte>, p: nat, n: nat, f: Parser<T>, w: nat)
    requires forall bb: seq<byte>, pp: nat :: f(bb, pp).Ok? ==> f(bb, pp).value.next == pp + w
    ensures ParseSeq(b, p, n, f).Ok? ==> ParseSeq(b, p, n, f).value.next == p + n * w
  {
    if n > 0 {
      ParseSeqFixedWidth(b, p, n - 1, f, w);
      var r := ParseSeq(b, p, n - 1, f);
      if r.Ok? {
        var q := r.value.next;
        assert f(b, q).Ok? ==> f(b, q).value.next == q + w;
      }
    }
  }

  /** `n` u2 values in a row are the big-endian u2 at every second byte,
      and they take exactly 2 * n bytes. */
  lemma {:induction false} ParseU2Seq(b: seq<byte>, p: nat, n: nat)
    requires ParseSeq(b, p, n, ParseU2).Ok?
    ensures p + 2 * n <= |b| || n == 0
    ensures ParseSeq(b, p, n, ParseU2).value.next == p + 2 * n
    ensures forall i | 0 <= i < n :: p + 2 * i + 2 <= |b| && ParseSeq(b, p, n, ParseU2).value.value[i] == U2(b, p + 2 * i)
  {
    if n > 0 {
      ParseU2Seq(b, p, n - 1);
    }
  }

  /** A u2-counted list of u2 indices (the `new int[readUnsignedShort()]`
      loops): element `i` is the u2 at p + 2 + 2 * i. */
  lemma ParseU2List(b: seq<byte>, p: nat)
    requires ParseCounted(b, p, ParseU2).Ok?
    ensures ParseCounted(b, p, ParseU2).value.next == p + 2 + 2 * U2(b, p) <= |b|
    ensures var xs := ParseCounted(b, p, ParseU2).value.value;
      forall i | 0 <= i < |xs| :: p + 2 * i + 4 <= |b| && xs[i] == U2(b, p + 2 + 2 * i)
  {
    ParseU2Seq(b, p + 2, U2(b, p));
  }

  /** The Java loop `xs = new X[n]; for (i ...) xs[i] = new X(stream);` for
      elements whose decoder reads a fixed record without loops of its own. */
  method ReadSeq<T(0)>(b: seq<byte>, p: nat, n: nat, f: Parser<T>) returns (r: Result<Parsed<seq<T>>>)
    ensures r == ParseSeq(b, p, n, f)
  {
    var xs := new T[n];
    var pos: nat := p;
    for i := 0 to n
      invariant ParseSeq(b, p, i, f) == Ok(Parsed(xs[..i], pos))
    {
      var x := f(b, pos);
      if x.Err? {
        ParseSeqErrPersists(b, p, i + 1, n, f);
        return Err(x.failure);
      }
      xs[i] := x.value.value;
      assert xs[..i + 1] == xs[..i] + [xs[i]];
      pos := x.value.next;
    }
    assert xs[..] == xs[..n];
    return Ok(Parsed(xs[..], pos));
  }

  /** A u2 count followed by that many fixed records. */
  method ReadCounted<T(0)>(b: seq<byte>, p: nat, f: Parser<T>) returns (r: Result<Parsed<seq<T>>>)
    ensures r == ParseCounted(b, p, f)
  {
    if p + 2 > |b| {
      return Err(Truncated);
    }
    r := ReadSeq(b, p + 2, U2(b, p), f);
  }
}
