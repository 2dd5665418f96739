/**
  Audio samples and frames as the recorder sees them once the float input of
  the capture device has been scaled to signed 16-bit integers, and the raw
  byte image (`tobytes()`, little-endian, two bytes per sample) that is written
  into the WAV container.
 */
module Samples {

  /** One signed 16-bit PCM sample (numpy `int16`). */
  type Sample = x: int | -32768 <= x < 32768

  type Byte = b: int | 0 <= b < 256

  /** A block of samples as delivered by the capture callback. */
  type Frame = seq<Sample>

  /** Total number of samples in a list of frames. */
  function TotalLength(frames: seq<Frame>): nat
  {
    if frames == [] then 0 else |frames[0]| + TotalLength(frames[1..])
  }

  /** The frames joined end to end (numpy `concatenate`). */
  function Concat(frames: seq<Frame>): (r: seq<Sample>)
    ensures |r| == TotalLength(frames)
    ensures frames != [] ==> r[..|frames[0]|] == frames[0]
  {
    if frames == [] then [] else frames[0] + Concat(frames[1..])
  }

  lemma {:induction false} ConcatAppend(frames: seq<Frame>, f: Frame)
    ensures Concat(frames + [f]) == Concat(frames) + f
  {
    if frames == [] {
      assert [] + [f] == [f];
    } else {
      assert (frames + [f])[1..] == frames[1..] + [f];
      ConcatAppend(frames[1..], f);
    }
  }

  /** When every frame has the configured length n, the joined buffer holds n samples per frame. */
  lemma {:induction false} ConcatUniform(frames: seq<Frame>, n: nat)
    requires forall k :: 0 <= k < |frames| ==> |frames[k]| == n
    ensures |Concat(frames)| == n * |frames|
  {
    if frames != [] {
      ConcatUniform(frames[1..], n);
      assert |Concat(frames)| == n + n * (|frames| - 1);
    }
  }

  /** Little-endian two's-complement image of one sample. */
  function EncodeSample(x: Sample): seq<Byte>
  {
    var u := if x < 0 then x + 65536 else x;
    [u % 256, u / 256]
  }

  function DecodeSample(lo: Byte, hi: Byte): Sample
  {
    var u := lo + 256 * hi;
    if u >= 32768 then u - 65536 else u
  }

  /** The byte image of a sample buffer: two bytes per sample, low byte first. */
  function ToBytes(s: seq<Sample>): (b: seq<Byte>)
    ensures |b| == 2 * |s|
  {
    if s == [] then [] else EncodeSample(s[0]) + ToBytes(s[1..])
  }

  /** Bytes `2i` and `2i + 1` of the image are the two's-complement value of sample `i`, low byte first. */
  lemma {:induction false} ToBytesAt(s: seq<Sample>, i: nat)
    requires i < |s|
    ensures ToBytes(s)[2 * i] as int + 256 * (ToBytes(s)[2 * i + 1] as int) == (s[i] as int) % 65536
  {
    var rest := ToBytes(s[1..]);
    assert ToBytes(s) == EncodeSample(s[0]) + rest;
    if i > 0 {
      ToBytesAt(s[1..], i - 1);
      assert ToBytes(s)[2 * i] == rest[2 * (i - 1)];
      assert ToBytes(s)[2 * i + 1] == rest[2 * (i - 1) + 1];
    }
  }

  /** Reads an even-length byte image back as samples. */
  function FromBytes(b: seq<Byte>): (s: seq<Sample>)
    requires |b| % 2 == 0
    ensures 2 * |s| == |b|
  {
    if b == [] then [] else [DecodeSample(b[0], b[1])] + FromBytes(b[2..])
  }

  lemma DecodeEncodeSample(x: Sample)
    ensures DecodeSample(EncodeSample(x)[0], EncodeSample(x)[1]) == x
  {
  }

  lemma {:induction false} FromBytesToBytes(s: seq<Sample>)
    ensures FromBytes(ToBytes(s)) == s
  {
    if s != [] {
      var e := EncodeSample(s[0]);
      var rest := ToBytes(s[1..]);
      assert ToBytes(s) == e + rest;
      assert (e + rest)[2..] == rest;
      DecodeEncodeSample(s[0]);
      FromBytesToBytes(s[1..]);
      assert FromBytes(e + rest) == [s[0]] + s[1..];
    }
  }

  lemma {:induction false} ToBytesFromBytes(b: seq<Byte>)
    requires |b| % 2 == 0
    ensures ToBytes(FromBytes(b)) == b
  {
    if b != [] {
      var s := FromBytes(b);
      assert s[1..] == FromBytes(b[2..]);
      ToBytesFromBytes(b[2..]);
      assert b == [b[0], b[1]] + b[2..];
    }
  }
}
