/** Encoding and compression of stored values. The JSON and gzip codecs are libraries; a
    `Codec` stands for any pair of them. */
module Packing {
  import opened Wrappers
  import opened Storage

  /** An encoder and a compressor with their inverses, each of which may fail. */
  datatype Codec<!T> = Codec(
    encode: T -> Option<Bytes>,
    compress: Bytes -> Option<Bytes>,
    decompress: Bytes -> Option<Bytes>,
    decode: Bytes -> Option<T>)

  datatype PackError = EncodeError | CompressError | DecompressError | DecodeError

  function Pack<T>(codec: Codec<T>, value: T): Result<Bytes, PackError> {
    match codec.encode(value)
    case None => Failure(EncodeError)
    case Some(json) =>
      match codec.compress(json)
      case None => Failure(CompressError)
      case Some(body) => Success(body)
  }

  function Unpack<T>(codec: Codec<T>, body: Bytes): Result<T, PackError> {
    match codec.decompress(body)
    case None => Failure(DecompressError)
    case Some(json) =>
      match codec.decode(json)
      case None => Failure(DecodeError)
      case Some(value) => Success(value)
  }

  /** Decoding undoes encoding, and decompression undoes compression, wherever those succeed. */
  ghost predicate Invertible<T(!new)>(codec: Codec<T>) {
    && (forall value :: codec.encode(value).Some? ==> codec.decode(codec.encode(value).value) == Some(value))
    && (forall json :: codec.compress(json).Some? ==> codec.decompress(codec.compress(json).value) == Some(json))
  }

  /** What is stored is the compressed encoding, and it unpacks to the value. */
  lemma PackRoundTrip<T(!new)>(codec: Codec<T>, value: T)
    requires Invertible(codec)
    ensures Pack(codec, value).Success? <==>
              codec.encode(value).Some? && codec.compress(codec.encode(value).value).Some?
    ensures Pack(codec, value).Success? ==>
              && codec.compress(codec.encode(value).value) == Some(Pack(codec, value).value)
              && Unpack(codec, Pack(codec, value).value) == Success(value)
  {
  }
}
