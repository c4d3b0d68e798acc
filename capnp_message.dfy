/**
 * `Message::encode`: the JSON serialization of a message, framed by a
 * 4-byte big-endian length. The serialization itself is an input here.
 */
module MessageFraming {
  import opened Wrappers
  import opened Bytes

  const U32Max: nat := 0xFFFF_FFFF

  datatype EncodingError = Serde | Overflow(size: nat, max: nat)

  /** `encode`, given what the JSON serializer produced. */
  function Encode(serialized: Result<seq<byte>, ()>): (r: Result<seq<byte>, EncodingError>)
    ensures serialized.Err? ==> r == Err(Serde)
    ensures serialized.Ok? && |serialized.value| > U32Max ==>
      r == Err(Overflow(|serialized.value|, U32Max))
    ensures serialized.Ok? && |serialized.value| <= U32Max ==>
      && r.Ok?
      && |r.value| == 4 + |serialized.value|
      && BeValue(r.value[..4]) == |serialized.value|
      && r.value[4..] == serialized.value
  {
    match serialized
    case Err(_) => Err(Serde)
    case Ok(data) =>
      if |data| > U32Max then Err(Overflow(|data|, U32Max))
      else
        BeValueOfBytes(|data|, 4);
        var header := BeBytes(|data|, 4);
        assert (header + data)[..4] == header && (header + data)[4..] == data;
        Ok(header + data)
  }

  /** Reading a frame back: the length header, then exactly that many bytes. */
  function Decode(frame: seq<byte>): Option<seq<byte>>
  {
    if |frame| < 4 || |frame| - 4 != BeValue(frame[..4]) then None else Some(frame[4..])
  }

  /** Decoding an encoded frame gives the payload back. */
  lemma DecodeEncode(data: seq<byte>)
    requires |data| <= U32Max
    ensures Encode(Ok(data)).Ok? && Decode(Encode(Ok(data)).value) == Some(data)
  {
  }

  /** Encoding the payload of a decodable frame gives the frame back. */
  lemma EncodeDecode(frame: seq<byte>)
    requires Decode(frame).Some?
    ensures Encode(Ok(Decode(frame).value)) == Ok(frame)
  {
    var data := frame[4..];
    BeBytesOfValue(frame[..4]);
    assert frame == frame[..4] + data;
  }
}
