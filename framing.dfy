/** How the pickle flush of statsdpy/statsd.py cuts its entries into batches
    (`_get_batches`) and frames each serialised batch with a 4-byte
    big-endian length (`struct.pack("!L", n)`). */
module Framing {
  import opened PyText

  newtype byte = x: int | 0 <= x < 256

  /** 2^32: `!L` packs an unsigned 32-bit integer. */
  const LIMIT: int := 0x1_0000_0000

  /** The slices `items[i:i + size]` for `i` in `xrange(0, len(items), size)`;
      `None` where `xrange` raises `ValueError` (a zero step). A negative
      step yields no batch at all. */
  function Batches<T>(items: seq<T>, size: int): (r: Option<seq<seq<T>>>)
    ensures r.None? <==> size == 0
    ensures size < 0 ==> r == Some([])
  {
    if size == 0 then None
    else if size < 0 then Some([])
    else Some(Chunks(items, size))
  }

  /** Consecutive slices of `size` items; the last may be shorter. */
  function Chunks<T>(items: seq<T>, size: nat): seq<seq<T>>
    requires size > 0
    decreases |items|
  {
    if items == [] then []
    else if |items| <= size then [items]
    else [items[..size]] + Chunks(items[size..], size)
  }

  function Flatten<T>(parts: seq<seq<T>>): seq<T>
  {
    if parts == [] then [] else parts[0] + Flatten(parts[1..])
  }

  /** The batches, put back together, are the entries in their order. */
  lemma {:induction false} ChunksFlatten<T>(items: seq<T>, size: nat)
    requires size > 0
    ensures Flatten(Chunks(items, size)) == items
    decreases |items|
  {
    if items != [] && |items| > size {
      ChunksFlatten(items[size..], size);
      assert items == items[..size] + items[size..];
    } else if items != [] {
      assert [items][1..] == [];
      assert items + [] == items;
    }
  }

  /** Every batch holds between 1 and `size` items, and every batch but the
      last holds exactly `size`. */
  lemma {:induction false} ChunksSizes<T>(items: seq<T>, size: nat)
    requires size > 0
    ensures forall i :: 0 <= i < |Chunks(items, size)| ==> 0 < |Chunks(items, size)[i]| <= size
    ensures forall i :: 0 <= i < |Chunks(items, size)| - 1 ==> |Chunks(items, size)[i]| == size
    decreases |items|
  {
    if |items| > size {
      ChunksSizes(items[size..], size);
      var cs, rest := Chunks(items, size), Chunks(items[size..], size);
      assert cs == [items[..size]] + rest;
      forall i | 0 <= i < |cs|
        ensures 0 < |cs[i]| <= size && (i < |cs| - 1 ==> |cs[i]| == size)
      {
        if i > 0 {
          assert cs[i] == rest[i - 1];
        } else {
          assert cs[0] == items[..size];
        }
      }
    }
  }

  /** There are `ceil(N / size)` batches: the fewest that hold `N` items. */
  lemma {:induction false} ChunksCount<T>(items: seq<T>, size: nat)
    requires size > 0
    ensures var n := |Chunks(items, size)|;
      && (items == [] ==> n == 0)
      && (items != [] ==> (n - 1) * size < |items| <= n * size)
    decreases |items|
  {
    if |items| > size {
      ChunksCount(items[size..], size);
      var m := |Chunks(items[size..], size)|;
      assert (m + 1) * size == m * size + size;
      assert m * size == (m + 1 - 1) * size;
    }
  }

  /** `struct.pack("!L", n)`: four bytes, most significant first. */
  function Pack32BE(n: int): (b: seq<byte>)
    requires 0 <= n < LIMIT
    ensures |b| == 4
  {
    [(n / 0x100 / 0x100 / 0x100) as byte, (n / 0x100 / 0x100 % 0x100) as byte, (n / 0x100 % 0x100) as byte, (n % 0x100) as byte]
  }

  /** `struct.unpack("!L", b)[0]`: what the receiver reads from the prefix. */
  function Unpack32BE(b: seq<byte>): (n: int)
    requires |b| == 4
    ensures 0 <= n < LIMIT
  {
    ((b[0] as int * 0x100 + b[1] as int) * 0x100 + b[2] as int) * 0x100 + b[3] as int
  }

  lemma UnpackPack(n: int)
    requires 0 <= n < LIMIT
    ensures Unpack32BE(Pack32BE(n)) == n
  {
    var q1, q2 := n / 0x100, n / 0x100 / 0x100;
    var q3 := q2 / 0x100;
    assert n == q1 * 0x100 + n % 0x100;
    assert q1 == q2 * 0x100 + q1 % 0x100;
    assert q2 == q3 * 0x100 + q2 % 0x100;
  }

  lemma PackUnpack(b: seq<byte>)
    requires |b| == 4
    ensures Pack32BE(Unpack32BE(b)) == b
  {
    var n := Unpack32BE(b);
    var b0, b1, b2, b3 := b[0] as int, b[1] as int, b[2] as int, b[3] as int;
    var q1, q2 := (b0 * 0x100 + b1) * 0x100 + b2, b0 * 0x100 + b1;
    assert n / 0x100 == q1 && n % 0x100 == b3;
    assert q1 / 0x100 == q2 && q1 % 0x100 == b2;
    assert q2 / 0x100 == b0 && q2 % 0x100 == b1;
  }

  /** `length_prefix + serialized_data`, or `None` where `struct.pack`
      raises because the length does not fit in 32 bits. */
  function Frame(data: seq<byte>): (r: Option<seq<byte>>)
    ensures r.Some? <==> |data| < LIMIT
    ensures r.Some? ==> |r.value| == |data| + 4 && r.value[4..] == data
  {
    if |data| < LIMIT then Some(Pack32BE(|data|) + data) else None
  }

  /** How a receiver takes one frame off the front of a byte stream. */
  function ReadFrame(stream: seq<byte>): Option<(seq<byte>, seq<byte>)>
  {
    if |stream| < 4 then None
    else
      var n := Unpack32BE(stream[..4]);
      if |stream| - 4 < n then None else Some((stream[4..4 + n], stream[4 + n..]))
  }

  /** A frame read back from a stream gives the serialised batch and leaves
      what follows it. */
  lemma FrameRoundTrip(data: seq<byte>, rest: seq<byte>)
    requires |data| < LIMIT
    ensures ReadFrame(Frame(data).value + rest) == Some((data, rest))
  {
    var f := Frame(data).value;
    var s := f + rest;
    assert s[..4] == Pack32BE(|data|);
    UnpackPack(|data|);
    assert s[4..4 + |data|] == data;
    assert s[4 + |data|..] == rest;
  }

  /** What `pickle_payload` returns: `None`, a list, or it raises. */
  datatype Payload<T> = NoPayload | Payload(value: T) | Raised

  /** The framed batches for a non-empty entry list; `serialise` stands for
      `pickle.dumps(batch, protocol=-1)`. */
  function FrameAll<T>(batches: seq<seq<T>>, serialise: seq<T> -> seq<byte>): (r: Option<seq<seq<byte>>>)
    ensures r.Some? ==> |r.value| == |batches|
    ensures r.Some? ==> forall i :: 0 <= i < |batches| ==> Frame(serialise(batches[i])) == Some(r.value[i])
    ensures r.None? <==> exists i :: 0 <= i < |batches| && |serialise(batches[i])| >= LIMIT
  {
    if batches == [] then Some([])
    else
      var rest := FrameAll(batches[1..], serialise);
      match Frame(serialise(batches[0]))
      case None => None
      case Some(f) =>
        if rest.None? then
          var j :| 0 <= j < |batches[1..]| && |serialise(batches[1..][j])| >= LIMIT;
          assert |serialise(batches[j + 1])| >= LIMIT;
          None
        else Some([f] + rest.value)
  }

  /** Framing one more batch extends the frames, or fails on that batch. */
  lemma {:induction false} FrameAllSnoc<T>(bs: seq<seq<T>>, b: seq<T>, serialise: seq<T> -> seq<byte>)
    ensures FrameAll(bs + [b], serialise) ==
      match FrameAll(bs, serialise)
      case None => None
      case Some(fs) => match Frame(serialise(b)) case None => None case Some(f) => Some(fs + [f])
  {
    if bs == [] {
      assert [b][1..] == [];
      assert bs + [b] == [b];
      match Frame(serialise(b))
      case None =>
      case Some(f) =>
        assert [f] + [] == [] + [f];
    } else {
      var x := bs + [b];
      assert x[0] == bs[0];
      assert x[1..] == bs[1..] + [b];
      FrameAllSnoc(bs[1..], b, serialise);
      match Frame(serialise(bs[0]))
      case None =>
      case Some(f0) =>
        match FrameAll(bs[1..], serialise)
        case None =>
        case Some(rest) =>
          match Frame(serialise(b))
          case None =>
          case Some(f) =>
            assert [f0] + (rest + [f]) == ([f0] + rest) + [f];
    }
  }

  /** The tail of `pickle_payload` after its three loops: `None` for no
      entries, otherwise the framed batches, raising on a zero batch size or
      an oversized batch. */
  function PickleBatches<T>(entries: seq<T>, size: int, serialise: seq<T> -> seq<byte>): Payload<seq<seq<byte>>>
  {
    if entries == [] then NoPayload
    else
      match Batches(entries, size)
      case None => Raised
      case Some(bs) =>
        match FrameAll(bs, serialise)
        case None => Raised
        case Some(fs) => Payload(fs)
  }

  /** With a positive batch size and batches that fit, each frame carries
      one batch, in order, and the batches hold every entry exactly once. */
  lemma PickleBatchesSpec<T>(entries: seq<T>, size: int, serialise: seq<T> -> seq<byte>)
    requires entries != [] && size > 0
    requires forall b :: b in Chunks(entries, size) ==> |serialise(b)| < LIMIT
    ensures var r := PickleBatches(entries, size, serialise);
      && r.Payload?
      && (|r.value| - 1) * size < |entries| <= |r.value| * size
      && forall i :: 0 <= i < |r.value| ==> ReadFrame(r.value[i]) == Some((serialise(Chunks(entries, size)[i]), []))
  {
    var bs := Chunks(entries, size);
    ChunksCount(entries, size);
    var fs := FrameAll(bs, serialise).value;
    forall i | 0 <= i < |fs|
      ensures ReadFrame(fs[i]) == Some((serialise(bs[i]), []))
    {
      FrameRoundTrip(serialise(bs[i]), []);
      assert fs[i] + [] == fs[i];
    }
  }

  /** A negative batch size drops every entry: the list returned is empty,
      so the flush sends nothing. */
  lemma NegativeBatchSize<T>(entries: seq<T>, size: int, serialise: seq<T> -> seq<byte>)
    requires entries != [] && size < 0
    ensures PickleBatches(entries, size, serialise) == Payload([])
  {
  }
}
