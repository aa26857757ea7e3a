/**
  The multiplexed log and exec stream ("Stream format" of ContainerAttach in the Docker Engine API):
  splitting it into stdout and stderr, and searching its payload for a text chunk by chunk.
 */
module DockerStream {
  import opened Text

  const HEADER := 8

  /** The largest piece of a frame the searcher reads at once. */
  const CHUNK := 32768

  datatype Frame = Frame(kind: Byte, payload: seq<Byte>)

  /** A frame's size field holds 32 bits. */
  predicate Fits(f: Frame) {
    |f.payload| < 0x1_0000_0000
  }

  function BigEndian(n: nat): (bytes: seq<Byte>)
    requires n < 0x1_0000_0000
    ensures |bytes| == 4
  {
    var q1 := n / 256;
    var q2 := q1 / 256;
    [q2 / 256, q2 % 256, q1 % 256, n % 256]
  }

  function FromBigEndian(b: seq<Byte>): nat
    requires |b| == 4
  {
    (b[0] as int) * 0x100_0000 + (b[1] as int) * 0x1_0000 + (b[2] as int) * 256 + b[3]
  }

  lemma BigEndianRoundTrip(n: nat)
    requires n < 0x1_0000_0000
    ensures FromBigEndian(BigEndian(n)) == n
  {
    var q1 := n / 256;
    var q2 := q1 / 256;
    assert n == 256 * q1 + n % 256 && q1 == 256 * q2 + q1 % 256 && q2 == 256 * (q2 / 256) + q2 % 256;
  }

  function Encode(f: Frame): seq<Byte>
    requires Fits(f)
  {
    [f.kind, 0, 0, 0] + BigEndian(|f.payload|) + f.payload
  }

  function EncodeAll(fs: seq<Frame>): seq<Byte>
    requires forall f :: f in fs ==> Fits(f)
  {
    if fs == [] then [] else Encode(fs[0]) + EncodeAll(fs[1..])
  }

  function SizeOf(s: seq<Byte>): nat
    requires |s| >= HEADER
  {
    FromBigEndian(s[4..8])
  }

  /** The frame at the head of `s` is there in full. */
  predicate Complete(s: seq<Byte>)
    requires |s| >= HEADER
  {
    HEADER + SizeOf(s) <= |s|
  }

  /** Its payload, as far as it is there. */
  function Body(s: seq<Byte>): seq<Byte>
    requires |s| >= HEADER
  {
    if Complete(s) then s[HEADER..HEADER + SizeOf(s)] else s[HEADER..]
  }

  function After(s: seq<Byte>): (rest: seq<Byte>)
    requires |s| >= HEADER && Complete(s)
    ensures |rest| < |s|
  {
    s[HEADER + SizeOf(s)..]
  }

  lemma EncodedHead(f: Frame, rest: seq<Byte>)
    requires Fits(f)
    ensures var s := Encode(f) + rest;
            && |s| >= HEADER && s[0] == f.kind && SizeOf(s) == |f.payload|
            && Complete(s) && Body(s) == f.payload && After(s) == rest
  {
    var s := Encode(f) + rest;
    assert s[4..8] == BigEndian(|f.payload|);
    BigEndianRoundTrip(|f.payload|);
  }

  // ----- Demultiplexing -----

  /** What went to each sink; `ok` is false when the stream ended inside a payload. */
  datatype Split = Split(out: seq<Byte>, err: seq<Byte>, ok: bool)

  function Then(a: Split, b: Split): Split {
    Split(a.out + b.out, a.err + b.err, b.ok)
  }

  /** One payload, on stderr for kind 2 and on stdout for every other kind. */
  function Piece(kind: Byte, body: seq<Byte>): Split {
    if kind == 2 then Split([], body, true) else Split(body, [], true)
  }

  /** What `copyDockerStream` writes for the stream `s`. */
  function Demux(s: seq<Byte>): Split
    decreases |s|
  {
    if |s| < HEADER then Split([], [], true)
    else if Complete(s) then Then(Piece(s[0], Body(s)), Demux(After(s)))
    else Then(Piece(s[0], Body(s)), Split([], [], false))
  }

  /** The payloads of the frames of kind 2, or of all other kinds, in order. */
  function Payloads(fs: seq<Frame>, stderr: bool): seq<Byte> {
    if fs == [] then []
    else (if (fs[0].kind == 2) == stderr then fs[0].payload else []) + Payloads(fs[1..], stderr)
  }

  lemma ThenAssociates(a: Split, b: Split, c: Split)
    ensures Then(a, Then(b, c)) == Then(Then(a, b), c)
  {}

  lemma ThenPiece(out: seq<Byte>, err: seq<Byte>, kind: Byte, body: seq<Byte>)
    ensures Then(Split(out, err, true), Piece(kind, body)) ==
            if kind == 2 then Split(out, err + body, true) else Split(out + body, err, true)
  {
    assert out + [] == out && err + [] == err;
  }

  /**
    Demultiplexing undoes framing: whatever follows the frames, their payloads come first, kind 2 on
    stderr and all others on stdout.
   */
  lemma {:induction false} DemuxUndoesFraming(fs: seq<Frame>, rest: seq<Byte>)
    requires forall f :: f in fs ==> Fits(f)
    ensures Demux(EncodeAll(fs) + rest) == Then(Split(Payloads(fs, false), Payloads(fs, true), true), Demux(rest))
  {
    if fs == [] {
      assert EncodeAll(fs) + rest == rest;
    } else {
      var f, more := fs[0], EncodeAll(fs[1..]) + rest;
      assert EncodeAll(fs) + rest == Encode(f) + more;
      EncodedHead(f, more);
      DemuxUndoesFraming(fs[1..], rest);
      var tail := Split(Payloads(fs[1..], false), Payloads(fs[1..], true), true);
      assert Split(Payloads(fs, false), Payloads(fs, true), true) == Then(Piece(f.kind, f.payload), tail);
      ThenAssociates(Piece(f.kind, f.payload), tail, Demux(rest));
    }
  }

  /** A header cut short after the last frame changes nothing. */
  lemma PartialHeaderIgnored(fs: seq<Frame>, partial: seq<Byte>)
    requires (forall f :: f in fs ==> Fits(f)) && |partial| < HEADER
    ensures Demux(EncodeAll(fs) + partial) == Split(Payloads(fs, false), Payloads(fs, true), true)
  {
    DemuxUndoesFraming(fs, partial);
    assert Payloads(fs, false) + [] == Payloads(fs, false) && Payloads(fs, true) + [] == Payloads(fs, true);
  }

  /** Of a frame cut short, what arrived is written to its sink, and the copy fails. */
  lemma TruncatedFrameFails(fs: seq<Frame>, header: seq<Byte>, body: seq<Byte>)
    requires forall f :: f in fs ==> Fits(f)
    requires |header| == HEADER && SizeOf(header) > |body|
    ensures var d := Demux(EncodeAll(fs) + (header + body));
            && !d.ok
            && d.out == Payloads(fs, false) + (if header[0] == 2 then [] else body)
            && d.err == Payloads(fs, true) + (if header[0] == 2 then body else [])
  {
    var rest := header + body;
    DemuxUndoesFraming(fs, rest);
    assert rest[4..8] == header[4..8] && rest[HEADER..] == body && rest[0] == header[0];
    assert !Complete(rest) && Body(rest) == body;
    assert body + [] == body;
  }

  lemma LongerHead(s: seq<Byte>, t: seq<Byte>)
    requires |s| >= HEADER
    ensures SizeOf(s + t) == SizeOf(s) && (s + t)[0] == s[0]
    ensures Complete(s) ==> Complete(s + t) && Body(s + t) == Body(s) && After(s + t) == After(s) + t
    ensures Body(s) <= Body(s + t)
  {
    assert (s + t)[4..8] == s[4..8];
    if Complete(s) {
      var n := SizeOf(s);
      assert (s + t)[HEADER..HEADER + n] == s[HEADER..HEADER + n];
      assert (s + t)[HEADER + n..] == s[HEADER + n..] + t;
    } else {
      LongerBody(s, t);
    }
  }

  lemma LongerBody(s: seq<Byte>, t: seq<Byte>)
    requires |s| >= HEADER && SizeOf(s + t) == SizeOf(s) && !Complete(s)
    ensures Body(s) <= Body(s + t)
  {
    var b, b' := Body(s), Body(s + t);
    assert |b| <= |b'|;
    forall i | 0 <= i < |b| ensures b[i] == b'[i] {
      assert b[i] == s[HEADER + i] && b'[i] == (s + t)[HEADER + i];
    }
  }

  /** More of a stream only adds to what was already written to each sink. */
  lemma {:induction false} DemuxIsStreaming(s: seq<Byte>, t: seq<Byte>)
    ensures Demux(s).out <= Demux(s + t).out && Demux(s).err <= Demux(s + t).err
    decreases |s|
  {
    if |s| >= HEADER {
      LongerHead(s, t);
      if Complete(s) {
        DemuxIsStreaming(After(s), t);
      }
    }
  }

  /** `copyDockerStream` */
  method CopyDockerStream(stream: seq<Byte>) returns (out: seq<Byte>, err: seq<Byte>, ok: bool)
    ensures Split(out, err, ok) == Demux(stream)
  {
    var s := stream;
    out, err, ok := [], [], true;
    assert Then(Split([], [], true), Demux(s)) == Demux(s);
    while |s| >= HEADER
      invariant ok && Demux(stream) == Then(Split(out, err, ok), Demux(s))
      decreases |s|
    {
      ghost var tail := if Complete(s) then Demux(After(s)) else Split([], [], false);
      ThenAssociates(Split(out, err, true), Piece(s[0], Body(s)), tail);
      ThenPiece(out, err, s[0], Body(s));
      var size := SizeOf(s);
      if size == 0 {
        assert Body(s) == [] && err + [] == err && out + [] == out;
        s := s[HEADER..];
        continue;
      }
      if s[0] == 2 { err := err + Body(s); } else { out := out + Body(s); }
      if HEADER + size > |s| {
        assert out + [] == out && err + [] == err;
        return out, err, false;
      }
      s := s[HEADER + size..];
    }
    assert out + [] == out && err + [] == err;
  }
}
