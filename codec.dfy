/**
 * The length-prefixed stream decoder: a frame is an 8-byte big-endian
 * length followed by that many bytes of data. The decoder keeps the length
 * it has read so far; each `decode` call either reads the length or, once a
 * length is known, splits off the data when enough of it is buffered.
 */
module Codec {
  import opened Wrappers
  import opened Bytes

  /** Size of the length header. */
  const Offset: nat := 8

  datatype DecoderItem = DecoderItem(bytes: seq<byte>, length: nat)

  /** Errors the decoder's signature allows; no path produces one. */
  datatype CodecError = InvalidChunkSize(message: string) | LengthOverflow(attempted: nat, size: nat) | Io

  datatype State = State(nextIndex: nat, currentLength: Option<nat>)

  /** What one call leaves behind: the decoder state, the unconsumed buffer and the result. */
  datatype Output = Output(state: State, rest: seq<byte>, result: Result<Option<DecoderItem>, CodecError>)

  const Initial: State := State(0, None)

  /** `read_size`: with 8 bytes buffered, store their big-endian value and consume them. */
  function ReadSizeStep(st: State, src: seq<byte>): (o: Output)
    ensures o.result == Ok(None)
    ensures |src| < Offset ==> o.state == st && o.rest == src
    ensures |src| >= Offset ==>
      && o.state == State(0, Some(BeValue(src[..Offset])))
      && src == src[..Offset] + o.rest
  {
    if |src| >= Offset then Output(State(0, Some(BeValue(src[..Offset]))), src[Offset..], Ok(None))
    else Output(st, src, Ok(None))
  }

  /** `read_in_data`: once the stored length is buffered, split it off as one item. */
  function ReadInDataStep(st: State, src: seq<byte>): (o: Output)
    requires st.currentLength.Some?
    ensures o.result.Ok?
    ensures |src| < st.currentLength.value ==> o == Output(st, src, Ok(None))
    ensures |src| >= st.currentLength.value ==>
      && o.state == State(st.nextIndex, None)
      && o.result.value.Some?
      && var item := o.result.value.value;
         |item.bytes| == st.currentLength.value && item.length == |item.bytes| && src == item.bytes + o.rest
  {
    var len := st.currentLength.value;
    if |src| < len then Output(st, src, Ok(None))
    else Output(State(st.nextIndex, None), src[len..], Ok(Some(DecoderItem(src[..len], |src[..len]|))))
  }

  /** `decode`: read the length when none is stored, the data otherwise; it never fails. */
  function DecodeStep(st: State, src: seq<byte>): (o: Output)
    ensures o.result.Ok?
    ensures o.result.value.Some? ==> st.currentLength.Some? && o.state.currentLength.None?
  {
    match st.currentLength
    case None => ReadSizeStep(st, src)
    case Some(_) => ReadInDataStep(st, src)
  }

  /** The decoder object; its two fields change with each call. */
  class SizedDataCodec {
    var nextIndex: nat
    var currentLength: Option<nat>

    function Current(): State
      reads this
    {
      State(nextIndex, currentLength)
    }

    constructor ()
      ensures nextIndex == 0 && currentLength == None
    {
      nextIndex := 0;
      currentLength := None;
    }

    method ReadSize(src: seq<byte>) returns (rest: seq<byte>, r: Result<Option<DecoderItem>, CodecError>)
      modifies this
      ensures Output(Current(), rest, r) == ReadSizeStep(old(Current()), src)
    {
      rest := src;
      if |src| >= Offset {
        currentLength := Some(BeValue(src[..Offset]));
        rest := src[Offset..];
        nextIndex := 0;
      }
      r := Ok(None);
    }

    method ReadInData(src: seq<byte>) returns (rest: seq<byte>, r: Result<Option<DecoderItem>, CodecError>)
      requires currentLength.Some?
      modifies this
      ensures Output(Current(), rest, r) == ReadInDataStep(old(Current()), src)
    {
      var len := currentLength.value;
      if |src| < len {
        rest, r := src, Ok(None);
      } else {
        var chunk := src[..len];
        rest := src[len..];
        currentLength := None;
        r := Ok(Some(DecoderItem(chunk, |chunk|)));
      }
    }

    method Decode(src: seq<byte>) returns (rest: seq<byte>, r: Result<Option<DecoderItem>, CodecError>)
      modifies this
      ensures Output(Current(), rest, r) == DecodeStep(old(Current()), src)
      ensures r.Ok?
    {
      match currentLength
      case None => rest, r := ReadSize(src);
      case Some(_) => rest, r := ReadInData(src);
    }
  }

  function Flatten(chunks: seq<seq<byte>>): seq<byte>
  {
    if chunks == [] then [] else chunks[0] + Flatten(chunks[1..])
  }

  lemma {:induction false} FlattenSplit(chunks: seq<seq<byte>>, k: nat)
    requires k <= |chunks|
    ensures Flatten(chunks) == Flatten(chunks[..k]) + Flatten(chunks[k..])
  {
    if k > 0 {
      assert chunks[..k][1..] == chunks[1..][..k - 1];
      assert chunks[k..] == chunks[1..][k - 1..];
      FlattenSplit(chunks[1..], k - 1);
    } else {
      assert chunks[k..] == chunks;
    }
  }

  predicate NonEmptyChunks(chunks: seq<seq<byte>>)
  {
    forall i :: 0 <= i < |chunks| ==> chunks[i] != []
  }

  /**
   * The fuzz driver: append each chunk to the buffer and call `decode` once,
   * collecting what each call returned.
   */
  function Feed(st: State, buf: seq<byte>, chunks: seq<seq<byte>>): (outs: seq<Option<DecoderItem>>)
    ensures |outs| == |chunks|
    decreases |chunks|
  {
    if chunks == [] then []
    else
      var o := DecodeStep(st, buf + chunks[0]);
      [o.result.value] + Feed(o.state, o.rest, chunks[1..])
  }

  function Nones(n: nat): (r: seq<Option<DecoderItem>>)
    ensures |r| == n && forall i :: 0 <= i < n ==> r[i] == None
  {
    if n == 0 then [] else [None] + Nones(n - 1)
  }

  function Frame(data: seq<byte>): seq<byte>
    requires |data| < Pow256(Offset)
  {
    BeBytes(|data|, Offset) + data
  }

  /** With the length stored, chunks that only complete the data at the end yield it then. */
  lemma {:induction false} FeedData(n: nat, data: seq<byte>, j: nat, chunks: seq<seq<byte>>)
    requires j <= |data| && chunks != [] && NonEmptyChunks(chunks)
    requires Flatten(chunks) == data[j..]
    decreases |chunks|
    ensures Feed(State(n, Some(|data|)), data[..j], chunks)
         == Nones(|chunks| - 1) + [Some(DecoderItem(data, |data|))]
  {
    var st := State(n, Some(|data|));
    var c, tail := chunks[0], chunks[1..];
    var buf := data[..j] + c;
    assert data[j..] == c + Flatten(tail);
    assert buf == data[..j + |c|] by {
      assert data[..j + |c|] == data[..j] + data[j..][..|c|];
    }
    var o := DecodeStep(st, buf);
    assert Feed(st, data[..j], chunks) == [o.result.value] + Feed(o.state, o.rest, tail);
    if tail == [] {
      assert buf == data;
      assert o == Output(State(n, None), [], Ok(Some(DecoderItem(data, |data|))));
    } else {
      assert Flatten(tail) == tail[0] + Flatten(tail[1..]);
      assert tail[0] == chunks[1];
      assert j + |c| < |data|;
      assert o == Output(st, buf, Ok(None));
      assert NonEmptyChunks(tail) by {
        forall i | 0 <= i < |tail| ensures tail[i] != [] {
          assert tail[i] == chunks[i + 1];
        }
      }
      FeedData(n, data, j + |c|, tail);
      assert Nones(|chunks| - 1) == [None] + Nones(|tail| - 1);
    }
  }

  lemma TailNonEmpty(chunks: seq<seq<byte>>)
    requires chunks != [] && NonEmptyChunks(chunks)
    ensures NonEmptyChunks(chunks[1..])
  {
    forall i | 0 <= i < |chunks| - 1 ensures chunks[1..][i] != [] {
      assert chunks[1..][i] == chunks[i + 1];
    }
  }

  /** The bytes of all chunks but the last, seen from the second chunk on. */
  lemma {:induction false} InitFlatten(chunks: seq<seq<byte>>)
    requires |chunks| >= 2
    ensures Flatten(chunks[..|chunks| - 1]) == chunks[0] + Flatten(chunks[1..][..|chunks| - 2])
  {
    var init := chunks[..|chunks| - 1];
    assert init[0] == chunks[0];
    assert init[1..] == chunks[1..][..|chunks| - 2];
  }

  /** A call that sees the whole header of a frame, and at most the frame, reads the length and keeps the data bytes. */
  lemma HeaderStep(data: seq<byte>, n: nat)
    requires |data| < Pow256(Offset) && Offset <= n <= |Frame(data)|
    ensures DecodeStep(Initial, Frame(data)[..n]) == Output(State(0, Some(|data|)), data[..n - Offset], Ok(None))
  {
    var f := Frame(data);
    var buf := f[..n];
    assert buf[..Offset] == BeBytes(|data|, Offset);
    BeValueOfBytes(|data|, Offset);
    assert buf[Offset..] == data[..n - Offset];
  }

  /** Once the header is read, the chunks holding the rest of the frame yield the data with the last of them. */
  lemma DataAfterHeader(data: seq<byte>, n: nat, tail: seq<seq<byte>>)
    requires |data| < Pow256(Offset) && Offset <= n <= |Frame(data)|
    requires tail != [] && NonEmptyChunks(tail) && Flatten(tail) == Frame(data)[n..]
    ensures Feed(State(0, Some(|data|)), data[..n - Offset], tail) == Nones(|tail| - 1) + [Some(DecoderItem(data, |data|))]
  {
    var f := Frame(data);
    assert f[Offset..] == data;
    assert f[n..] == data[n - Offset..];
    FeedData(0, data, n - Offset, tail);
  }

  /** The first of the chunks that follow `p` bytes of a frame is decoded together with those bytes. */
  lemma FirstChunk(data: seq<byte>, p: nat, chunks: seq<seq<byte>>)
    requires |data| < Pow256(Offset) && p <= |Frame(data)| && chunks != []
    requires Flatten(chunks) == Frame(data)[p..]
    ensures var n := p + |chunks[0]|;
      && n <= |Frame(data)| && Flatten(chunks[1..]) == Frame(data)[n..]
      && var o := DecodeStep(Initial, Frame(data)[..n]);
         Feed(Initial, Frame(data)[..p], chunks) == [o.result.value] + Feed(o.state, o.rest, chunks[1..])
  {
    var f := Frame(data);
    var c := chunks[0];
    assert f[p..] == c + Flatten(chunks[1..]);
    assert f[..p] + c == f[..p + |c|] by {
      assert f[..p + |c|] == f[..p] + f[p..][..|c|];
    }
    assert f[p + |c|..] == f[p..][|c|..];
  }

  /** Before the header is complete each call returns nothing and keeps the buffer. */
  lemma {:induction false} FeedHeader(data: seq<byte>, p: nat, chunks: seq<seq<byte>>)
    requires |data| < Pow256(Offset) && p < Offset && chunks != [] && NonEmptyChunks(chunks)
    requires Flatten(chunks) == Frame(data)[p..]
    decreases |chunks|
    ensures |Flatten(chunks[..|chunks| - 1])| + p >= Offset ==>
      Feed(Initial, Frame(data)[..p], chunks) == Nones(|chunks| - 1) + [Some(DecoderItem(data, |data|))]
    ensures |Flatten(chunks[..|chunks| - 1])| + p < Offset ==>
      Feed(Initial, Frame(data)[..p], chunks) == Nones(|chunks|)
  {
    var f := Frame(data);
    var tail := chunks[1..];
    var n := p + |chunks[0]|;
    FirstChunk(data, p, chunks);
    if tail == [] {
      assert chunks[..|chunks| - 1] == [];
      assert f[..n] == f;
    } else {
      InitFlatten(chunks);
      TailNonEmpty(chunks);
      if n < Offset {
        FeedHeader(data, n, tail);
        assert Nones(|chunks|) == [None] + Nones(|tail|);
        assert Nones(|chunks| - 1) == [None] + Nones(|tail| - 1);
      } else {
        HeaderStep(data, n);
        DataAfterHeader(data, n, tail);
        assert Nones(|chunks| - 1) == [None] + Nones(|tail| - 1);
      }
    }
  }

  /**
   * Round trip of the fuzz target: a frame cut into non-empty chunks, with one
   * `decode` per chunk, yields nothing before the last call. The last call yields
   * exactly the data when the chunks before it held the complete header, and
   * nothing otherwise (that call could only read the header).
   */
  lemma FeedFrame(data: seq<byte>, chunks: seq<seq<byte>>)
    requires |data| < Pow256(Offset) && chunks != [] && NonEmptyChunks(chunks)
    requires Flatten(chunks) == Frame(data)
    ensures |Flatten(chunks[..|chunks| - 1])| >= Offset ==>
      Feed(Initial, [], chunks) == Nones(|chunks| - 1) + [Some(DecoderItem(data, |data|))]
    ensures |Flatten(chunks[..|chunks| - 1])| < Offset ==>
      Feed(Initial, [], chunks) == Nones(|chunks|)
  {
    assert Frame(data)[..0] == [] && Frame(data)[0..] == Frame(data);
    FeedHeader(data, 0, chunks);
  }

  /** A whole frame in one buffer takes two calls: the first only reads the header. */
  lemma WholeFrameTakesTwoCalls(data: seq<byte>)
    requires |data| < Pow256(Offset)
    ensures DecodeStep(Initial, Frame(data)) == Output(State(0, Some(|data|)), data, Ok(None))
    ensures DecodeStep(State(0, Some(|data|)), data) == Output(State(0, None), [], Ok(Some(DecoderItem(data, |data|))))
  {
    assert Frame(data)[..Offset] == BeBytes(|data|, Offset);
    BeValueOfBytes(|data|, Offset);
    assert Frame(data)[Offset..] == data;
    assert data[..|data|] == data && data[|data|..] == [];
  }
}
