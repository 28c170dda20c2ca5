/** Length-prefixed frames: four bytes, most significant first, then the body
    (src/ocp/ipc/protocol.py, src/ocp/ipc/client.py). */
module Framing {
  import opened Wrappers

  type Byte = b: int | 0 <= b < 256

  const MAX_BODY_BYTES := 0x10_0000

  datatype FrameError = BodyTooLarge(n: nat) | BadLength(n: nat) | Closed

  /** `struct.pack(">I", n)`. */
  function Pack(n: nat): (h: seq<Byte>)
    requires n < 0x1_0000_0000
    ensures |h| == 4
  {
    [n / 0x100_0000, n / 0x1_0000 % 256, n / 256 % 256, n % 256]
  }

  function Unpack(h: seq<Byte>): nat
    requires |h| == 4
  {
    ((h[0] as int * 256 + h[1] as int) * 256 + h[2] as int) * 256 + h[3] as int
  }

  lemma UnpackOfPack(n: nat)
    requires n < 0x1_0000_0000
    ensures Unpack(Pack(n)) == n
  {
    var a, b, c := n / 256, n / 0x1_0000, n / 0x100_0000;
    assert a == n / 256 && n == 256 * a + n % 256;
    assert b == a / 256 && a == 256 * b + a % 256;
    assert c == b / 256 && b == 256 * c + b % 256;
  }

  /** What `write_frame` puts on the stream. */
  function WriteFrame(body: seq<Byte>): Result<seq<Byte>, FrameError> {
    if |body| > MAX_BODY_BYTES then Err(BodyTooLarge(|body|)) else Ok(Pack(|body|) + body)
  }

  datatype Frame = Frame(body: seq<Byte>, rest: seq<Byte>)

  /** What reading a frame off a byte stream that then closes answers. */
  function ReadFrame(stream: seq<Byte>): Result<Frame, FrameError> {
    if |stream| < 4 then Err(Closed) else
      var n := Unpack(stream[..4]);
      if n == 0 || n > MAX_BODY_BYTES then Err(BadLength(n))
      else if |stream| < 4 + n then Err(Closed)
      else Ok(Frame(stream[4..4 + n], stream[4 + n..]))
  }

  /** A written frame is read back whole, nothing beyond it being consumed, exactly if
      the body is not empty: an empty one can be written but is refused by the reader. */
  lemma WriteThenRead(body: seq<Byte>, rest: seq<Byte>)
    requires |body| <= 1048576
    ensures WriteFrame(body).Ok?
    ensures ReadFrame(WriteFrame(body).value + rest) == Ok(Frame(body, rest)) <==> body != []
    ensures body == [] ==> ReadFrame(WriteFrame(body).value + rest) == Err(BadLength(0))
  {
    var s := Pack(|body|) + body + rest;
    UnpackOfPack(|body|);
    assert s[..4] == Pack(|body|);
    if body != [] {
      assert s[4..4 + |body|] == body && s[4 + |body|..] == rest;
    }
  }

  /** The bytes of a frame: the length, highest byte first, then the body; a body over one
      MiB is refused. */
  lemma FrameBytes(body: seq<Byte>)
    ensures WriteFrame(body).Ok? <==> |body| <= 1048576
    ensures WriteFrame(body).Ok? ==>
              var s := WriteFrame(body).value;
              && |s| == 4 + |body| && s[4..] == body
              && s[0] as int * 16777216 + s[1] as int * 65536 + s[2] as int * 256 + s[3] as int == |body|
  {
    if |body| <= MAX_BODY_BYTES {
      UnpackOfPack(|body|);
    }
  }

  /** What a reader answers to the length `n` a stream begins with. */
  lemma ReadTells(stream: seq<Byte>, n: nat)
    requires |stream| >= 4 && n == stream[0] as int * 16777216 + stream[1] as int * 65536 + stream[2] as int * 256 + stream[3] as int
    ensures n == 0 || n > 1048576 ==> ReadFrame(stream) == Err(BadLength(n))
    ensures 0 < n <= 1048576 && |stream| < 4 + n ==> ReadFrame(stream) == Err(Closed)
    ensures 0 < n <= 1048576 && |stream| >= 4 + n ==> ReadFrame(stream) == Ok(Frame(stream[4..4 + n], stream[4 + n..]))
  {
  }

  /** Several frames written one after another, to be read in turn. */
  function WriteAll(bodies: seq<seq<Byte>>): seq<Byte>
    requires forall b :: b in bodies ==> |b| <= 1048576
  {
    if bodies == [] then [] else WriteFrame(bodies[0]).value + WriteAll(bodies[1..])
  }

  /** Reads frames until the stream is used up or one is refused. */
  function ReadAll(stream: seq<Byte>): Result<seq<seq<Byte>>, FrameError>
    decreases |stream|
  {
    if stream == [] then Ok([]) else
      match ReadFrame(stream)
      case Err(e) => Err(e)
      case Ok(f) =>
        match ReadAll(f.rest)
        case Err(e) => Err(e)
        case Ok(bodies) => Ok([f.body] + bodies)
  }

  lemma ReadAllCons(stream: seq<Byte>, f: Frame)
    requires ReadFrame(stream) == Ok(f) && ReadAll(f.rest).Ok?
    ensures ReadAll(stream) == Ok([f.body] + ReadAll(f.rest).value)
  {
  }

  lemma OneMoreFrame(first: seq<Byte>, written: seq<Byte>, rest: seq<seq<Byte>>)
    requires 0 < |first| <= 1048576 && ReadAll(written) == Ok(rest)
    ensures ReadAll(WriteFrame(first).value + written) == Ok([first] + rest)
  {
    WriteThenRead(first, written);
    ReadAllCons(WriteFrame(first).value + written, Frame(first, written));
  }

  /** Frames written one after another are read back one by one. */
  lemma {:induction false} FramesStaySeparate(bodies: seq<seq<Byte>>)
    requires forall b :: b in bodies ==> 0 < |b| <= 1048576
    ensures ReadAll(WriteAll(bodies)) == Ok(bodies)
  {
    if bodies != [] {
      var first, rest := bodies[0], bodies[1..];
      assert first in bodies && bodies == [first] + rest;
      FramesStaySeparate(rest);
      OneMoreFrame(first, WriteAll(rest), rest);
    }
  }

  function Flatten(chunks: seq<seq<Byte>>): seq<Byte> {
    if chunks == [] then [] else chunks[0] + Flatten(chunks[1..])
  }

  /** A connected socket: what is still to arrive, cut into non-empty chunks in some way;
      when nothing is left the peer has closed. */
  class Socket {
    var chunks: seq<seq<Byte>>

    ghost predicate Valid() reads this {
      forall i :: 0 <= i < |chunks| ==> chunks[i] != []
    }

    constructor (chunks: seq<seq<Byte>>)
      requires forall i :: 0 <= i < |chunks| ==> chunks[i] != []
      ensures Valid() && this.chunks == chunks
    {
      this.chunks := chunks;
    }

    /** At most `n` bytes of the next chunk; nothing only at the end of the stream. */
    method Recv(n: nat) returns (got: seq<Byte>)
      requires Valid() && n > 0
      modifies this
      ensures Valid()
      ensures |got| <= n && Flatten(old(chunks)) == got + Flatten(chunks)
      ensures got == [] <==> Flatten(old(chunks)) == []
    {
      if chunks == [] {
        return [];
      }
      var next := chunks[0];
      if |next| <= n {
        got, chunks := next, chunks[1..];
      } else {
        got := next[..n];
        chunks := [next[n..]] + chunks[1..];
      }
    }

    /** `_recv_exact`: the next `n` bytes of the stream, however they were cut. */
    method RecvExact(n: nat) returns (r: Result<seq<Byte>, FrameError>)
      requires Valid()
      modifies this
      ensures Valid()
      ensures var before := Flatten(old(chunks));
              if |before| >= n then r == Ok(before[..n]) && Flatten(chunks) == before[n..]
              else r == Err(Closed) && Flatten(chunks) == []
    {
      var buf: seq<Byte> := [];
      while |buf| < n
        invariant Valid() && |buf| <= n
        invariant Flatten(old(chunks)) == buf + Flatten(chunks)
        decreases n - |buf|
      {
        var chunk := Recv(n - |buf|);
        if chunk == [] {
          return Err(Closed);
        }
        buf := buf + chunk;
      }
      r := Ok(buf);
    }

    /** The frame read of `call`. */
    method ReceiveFrame() returns (r: Result<seq<Byte>, FrameError>)
      requires Valid()
      modifies this
      ensures Valid()
      ensures match ReadFrame(Flatten(old(chunks)))
              case Ok(f) => r == Ok(f.body) && Flatten(chunks) == f.rest
              case Err(e) => r == Err(e)
    {
      ghost var stream := Flatten(chunks);
      var header := RecvExact(4);
      if header.Err? {
        return header;
      }
      var length := Unpack(header.value);
      if length == 0 || length > MAX_BODY_BYTES {
        return Err(BadLength(length));
      }
      r := RecvExact(length);
      if r.Ok? {
        assert stream[4..][..length] == stream[4..4 + length];
        assert stream[4..][length..] == stream[4 + length..];
      }
    }
  }
}
