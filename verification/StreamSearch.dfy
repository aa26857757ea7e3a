/** Waiting for a text in a container's log stream, keeping no more than a needle's length of it. */
module StreamSearch {
  import opened Seqs
  import opened Text
  import opened DockerStream

  predicate OccursAt(hay: seq<Byte>, i: nat, needle: seq<Byte>) {
    i + |needle| <= |hay| && hay[i..i + |needle|] == needle
  }

  /** `bytes.Contains` */
  predicate Contains(hay: seq<Byte>, needle: seq<Byte>) {
    exists i :: 0 <= i <= |hay| && OccursAt(hay, i, needle)
  }

  lemma OccursInLonger(before: seq<Byte>, hay: seq<Byte>, after: seq<Byte>, i: nat, needle: seq<Byte>)
    requires i + |needle| <= |hay|
    ensures OccursAt(before + hay + after, |before| + i, needle) <==> OccursAt(hay, i, needle)
  {
    assert (before + hay + after)[|before| + i..|before| + i + |needle|] == hay[i..i + |needle|];
  }

  /** An occurrence a chunk completes lies in the chunk and the needle's length minus one before it. */
  lemma WindowSuffices(seen: seq<Byte>, chunk: seq<Byte>, needle: seq<Byte>)
    requires needle != [] && !Contains(seen, needle)
    ensures Contains(Last(seen, |needle| - 1) + chunk, needle) <==> Contains(seen + chunk, needle)
  {
    var tail := Last(seen, |needle| - 1);
    var skip := |seen| - |tail|;
    assert seen[..skip] + (tail + chunk) + [] == seen + chunk;
    if i :| 0 <= i <= |tail + chunk| && OccursAt(tail + chunk, i, needle) {
      OccursInLonger(seen[..skip], tail + chunk, [], i, needle);
      assert OccursAt(seen + chunk, skip + i, needle);
    }
    if i :| 0 <= i <= |seen + chunk| && OccursAt(seen + chunk, i, needle) {
      if i + |needle| <= |seen| {
        assert [] + seen + chunk == seen + chunk;
        OccursInLonger([], seen, chunk, i, needle);
        assert false;
      }
      OccursInLonger(seen[..skip], tail + chunk, [], i - skip, needle);
    }
  }

  lemma ContainsInLonger(hay: seq<Byte>, after: seq<Byte>, needle: seq<Byte>)
    requires Contains(hay, needle)
    ensures Contains(hay + after, needle)
  {
    var i :| 0 <= i <= |hay| && OccursAt(hay, i, needle);
    assert [] + hay + after == hay + after;
    OccursInLonger([], hay, after, i, needle);
  }

  /** Of a payload of `n` bytes of which `body` arrives, the part that is searched: whole chunks only. */
  function WholeChunks(body: seq<Byte>, n: nat): seq<Byte> {
    if |body| == n then body else body[..|body| / CHUNK * CHUNK]
  }

  /** A frame's payload as far as it arrives, and the size its header announces. */
  datatype Arrived = Arrived(body: seq<Byte>, size: nat)

  /** The frames of a stream, the last one possibly cut short. */
  function FramesIn(s: seq<Byte>): seq<Arrived>
    decreases |s|
  {
    if |s| < HEADER then []
    else [Arrived(Body(s), SizeOf(s))] + if Complete(s) then FramesIn(After(s)) else []
  }

  function SearchedIn(ps: seq<Arrived>): seq<Byte> {
    if ps == [] then [] else WholeChunks(ps[0].body, ps[0].size) + SearchedIn(ps[1..])
  }

  /** The bytes of a stream that are searched, in the order they are read. */
  function Searched(s: seq<Byte>): seq<Byte> {
    SearchedIn(FramesIn(s))
  }

  function AllPayloads(fs: seq<Frame>): seq<Byte> {
    if fs == [] then [] else fs[0].payload + AllPayloads(fs[1..])
  }

  lemma SearchedHead(f: Frame, more: seq<Byte>)
    requires Fits(f)
    ensures Searched(Encode(f) + more) == f.payload + Searched(more)
  {
    EncodedHead(f, more);
    assert FramesIn(Encode(f) + more)[1..] == FramesIn(more);
  }

  lemma {:induction false} SearchedOfFrames(fs: seq<Frame>, rest: seq<Byte>)
    requires forall f :: f in fs ==> Fits(f)
    ensures Searched(EncodeAll(fs) + rest) == AllPayloads(fs) + Searched(rest)
  {
    if fs == [] {
      assert EncodeAll(fs) + rest == rest;
    } else {
      ConcatAssociates(Encode(fs[0]), EncodeAll(fs[1..]), rest);
      SearchedHead(fs[0], EncodeAll(fs[1..]) + rest);
      SearchedOfFrames(fs[1..], rest);
      ConcatAssociates(fs[0].payload, AllPayloads(fs[1..]), Searched(rest));
    }
  }

  /**
    On whole frames, however they cut the payload, what is searched is the payloads strung together; a
    partial header after them changes nothing.
   */
  lemma SearchedIsPayload(fs: seq<Frame>, partial: seq<Byte>)
    requires (forall f :: f in fs ==> Fits(f)) && |partial| < HEADER
    ensures Searched(EncodeAll(fs) + partial) == AllPayloads(fs)
  {
    SearchedOfFrames(fs, partial);
    assert AllPayloads(fs) + [] == AllPayloads(fs);
  }

  lemma SearchedTail(header: seq<Byte>, body: seq<Byte>)
    requires |header| == HEADER && SizeOf(header) > |body|
    ensures Searched(header + body) == body[..|body| / CHUNK * CHUNK]
  {
    var rest := header + body;
    assert rest[4..8] == header[4..8] && rest[HEADER..] == body;
    assert FramesIn(rest) == [Arrived(body, SizeOf(rest))] && FramesIn(rest)[1..] == [];
    assert !Complete(rest) && SearchedIn([]) == [];
    assert WholeChunks(body, SizeOf(rest)) + [] == WholeChunks(body, SizeOf(rest));
  }

  /** Of a frame cut short, only the whole chunks that arrived are searched. */
  lemma SearchedOfTruncated(fs: seq<Frame>, header: seq<Byte>, body: seq<Byte>)
    requires forall f :: f in fs ==> Fits(f)
    requires |header| == HEADER && SizeOf(header) > |body|
    ensures Searched(EncodeAll(fs) + (header + body)) == AllPayloads(fs) + body[..|body| / CHUNK * CHUNK]
  {
    SearchedOfFrames(fs, header + body);
    SearchedTail(header, body);
  }

  /** A needle that arrived in full is missed when it lies in the unfinished chunk of a frame cut short. */
  lemma UnfinishedChunkMissed()
    ensures var stream: seq<Byte> := [1, 0, 0, 0, 0, 0, 0, 2, 65];
            Contains(Body(stream), [65]) && !Contains(Searched(stream), [65])
  {
    var stream: seq<Byte> := [1, 0, 0, 0, 0, 0, 0, 2, 65];
    assert stream[4..8] == [0, 0, 0, 2] && stream[HEADER..] == [65];
    assert OccursAt([65], 0, [65]);
    assert FramesIn(stream) == [Arrived([65], 2)] && Searched(stream) == [];
  }

  /** Searching one text finds what searching the other does, for every needle. */
  ghost predicate SameFinds(a: seq<Byte>, b: seq<Byte>) {
    forall needle :: Contains(a, needle) <==> Contains(b, needle)
  }

  lemma SameFindsIff(a: seq<Byte>, b: seq<Byte>)
    requires a <= b
    ensures SameFinds(a, b) <==> a == b
  {
    if a != b {
      assert OccursAt(b, 0, b);
      assert Contains(b, b) && !Contains(a, b);
    }
  }

  lemma PartMissesNothingIff(before: seq<Byte>, body: seq<Byte>, n: nat)
    requires n <= |body|
    ensures SameFinds(before + body[..n], before + body) <==> n == |body|
  {
    TakeOfConcat(before, body, n);
    SameFindsIff(before + body[..n], before + body);
    if n == |body| {
      assert body[..n] == body;
    } else {
      assert |before + body[..n]| < |before + body|;
    }
  }

  lemma WholeIffMultiple(n: nat)
    ensures n / CHUNK * CHUNK == n <==> n % CHUNK == 0
  {}

  lemma CutMissesNothingIff(searched: seq<Byte>, before: seq<Byte>, body: seq<Byte>)
    requires searched == before + body[..|body| / CHUNK * CHUNK]
    ensures SameFinds(searched, before + body) <==> |body| % CHUNK == 0
  {
    PartMissesNothingIff(before, body, |body| / CHUNK * CHUNK);
    WholeIffMultiple(|body|);
  }

  /** Nothing that arrived is missed in a frame cut short if and only if it was cut at the end of a chunk. */
  lemma TruncatedMissesNothingIff(fs: seq<Frame>, header: seq<Byte>, body: seq<Byte>)
    requires forall f :: f in fs ==> Fits(f)
    requires |header| == HEADER && SizeOf(header) > |body|
    ensures SameFinds(Searched(EncodeAll(fs) + (header + body)), AllPayloads(fs) + body) <==> |body| % CHUNK == 0
  {
    SearchedOfTruncated(fs, header, body);
    CutMissesNothingIff(Searched(EncodeAll(fs) + (header + body)), AllPayloads(fs), body);
  }

  // ----- Chunks -----

  /** Bytes read at once, and how far into the stream the reader is then. */
  datatype Chunk = Chunk(bytes: seq<Byte>, end: nat)

  function NextSize(size: nat): nat {
    if size < CHUNK then size else CHUNK
  }

  /** The chunks in which a payload of `size` bytes from `at` on is read, as far as `body` arrives. */
  function ChunksOf(body: seq<Byte>, size: nat, at: nat): seq<Chunk>
    decreases size
  {
    var c := NextSize(size);
    if size == 0 || c > |body| then [] else [Chunk(body[..c], at + c)] + ChunksOf(body[c..], size - c, at + c)
  }

  /** The chunks in which the frames are read, when they start at `at`. */
  function ChunksFrom(ps: seq<Arrived>, at: nat): seq<Chunk> {
    if ps == [] then []
    else ChunksOf(ps[0].body, ps[0].size, at + HEADER) + ChunksFrom(ps[1..], at + HEADER + ps[0].size)
  }

  /** The chunks in which the stream `s` is read. */
  function StreamChunks(s: seq<Byte>): seq<Chunk> {
    ChunksFrom(FramesIn(s), 0)
  }

  /** The bytes of the first `k` chunks. */
  function BytesTo(cs: seq<Chunk>, k: nat): seq<Byte>
    requires k <= |cs|
  {
    if k == 0 then [] else BytesTo(cs, k - 1) + cs[k - 1].bytes
  }

  function Bytes(cs: seq<Chunk>): seq<Byte> {
    BytesTo(cs, |cs|)
  }

  lemma {:induction false} BytesOfLonger(a: seq<Chunk>, b: seq<Chunk>, k: nat)
    requires k <= |a|
    ensures BytesTo(a + b, k) == BytesTo(a, k)
  {
    if k > 0 {
      BytesOfLonger(a, b, k - 1);
    }
  }

  lemma {:induction false} BytesBehind(a: seq<Chunk>, b: seq<Chunk>, k: nat)
    requires k <= |b|
    ensures BytesTo(a + b, |a| + k) == Bytes(a) + BytesTo(b, k)
  {
    if k == 0 {
      BytesOfLonger(a, b, |a|);
      ConcatEmpty(Bytes(a));
    } else {
      BytesBehind(a, b, k - 1);
      ConcatAssociates(Bytes(a), BytesTo(b, k - 1), b[k - 1].bytes);
    }
  }

  lemma BytesConcat(a: seq<Chunk>, b: seq<Chunk>)
    ensures Bytes(a + b) == Bytes(a) + Bytes(b)
  {
    BytesBehind(a, b, |b|);
  }

  lemma BytesOne(c: Chunk)
    ensures Bytes([c]) == c.bytes
  {
    assert BytesTo([c], 0) + c.bytes == c.bytes;
  }

  lemma BytesSnoc(cs: seq<Chunk>, c: Chunk)
    ensures Bytes(cs + [c]) == Bytes(cs) + c.bytes
  {
    BytesConcat(cs, [c]);
    BytesOne(c);
  }

  lemma BytesCons(c: Chunk, more: seq<Chunk>)
    ensures Bytes([c] + more) == c.bytes + Bytes(more)
  {
    BytesConcat([c], more);
    BytesOne(c);
  }

  lemma WholeChunksFrom(body: seq<Byte>, size: nat)
    requires 0 < NextSize(size) <= |body| <= size
    ensures var c := NextSize(size);
            WholeChunks(body, size) == body[..c] + WholeChunks(body[c..], size - c)
  {
    var c := NextSize(size);
    if |body| < size {
      assert |body| / CHUNK * CHUNK == c + (|body| - c) / CHUNK * CHUNK;
    }
  }

  lemma {:induction false} ChunksAreWhole(body: seq<Byte>, size: nat, at: nat)
    requires |body| <= size
    ensures Bytes(ChunksOf(body, size, at)) == WholeChunks(body, size)
    decreases size
  {
    var c := NextSize(size);
    if size > 0 && c <= |body| {
      ChunksAreWhole(body[c..], size - c, at + c);
      ChunksGrow(body, size, at, WholeChunks(body[c..], size - c));
      WholeChunksFrom(body, size);
    } else {
      NoWholeChunk(body, size);
      assert ChunksOf(body, size, at) == [];
    }
  }

  lemma ChunksGrow(body: seq<Byte>, size: nat, at: nat, more: seq<Byte>)
    requires 0 < size && NextSize(size) <= |body|
    requires var c := NextSize(size); Bytes(ChunksOf(body[c..], size - c, at + c)) == more
    ensures Bytes(ChunksOf(body, size, at)) == body[..NextSize(size)] + more
  {
    var c := NextSize(size);
    BytesCons(Chunk(body[..c], at + c), ChunksOf(body[c..], size - c, at + c));
  }

  lemma NoWholeChunk(body: seq<Byte>, size: nat)
    requires |body| <= size && (size == 0 || NextSize(size) > |body|)
    ensures WholeChunks(body, size) == []
  {
    assert |body| < CHUNK;
    assert |body| / CHUNK == 0;
  }

  predicate AllArrived(ps: seq<Arrived>) {
    forall i :: 0 <= i < |ps| ==> |ps[i].body| <= ps[i].size
  }

  lemma {:induction false} ChunksAreSearchedIn(ps: seq<Arrived>, at: nat)
    requires AllArrived(ps)
    ensures Bytes(ChunksFrom(ps, at)) == SearchedIn(ps)
  {
    if ps != [] {
      ChunksAreWhole(ps[0].body, ps[0].size, at + HEADER);
      ChunksAreSearchedIn(ps[1..], at + HEADER + ps[0].size);
      BytesConcat(ChunksOf(ps[0].body, ps[0].size, at + HEADER), ChunksFrom(ps[1..], at + HEADER + ps[0].size));
    }
  }

  lemma {:induction false} NoMoreThanAnnounced(s: seq<Byte>)
    ensures AllArrived(FramesIn(s))
    decreases |s|
  {
    if |s| >= HEADER && Complete(s) {
      NoMoreThanAnnounced(After(s));
    }
  }

  /** The chunks of a stream are the bytes that are searched. */
  lemma ChunksAreSearched(s: seq<Byte>)
    ensures Bytes(StreamChunks(s)) == Searched(s)
  {
    NoMoreThanAnnounced(s);
    ChunksAreSearchedIn(FramesIn(s), 0);
  }

  /** The chunk's bytes are the last of the stream up to its end. */
  predicate ChunkAt(s: seq<Byte>, c: Chunk) {
    c.bytes != [] && |c.bytes| <= c.end <= |s| && s[c.end - |c.bytes|..c.end] == c.bytes
  }

  lemma {:induction false} ChunksOfAt(s: seq<Byte>, body: seq<Byte>, size: nat, at: nat, k: nat)
    requires at + |body| <= |s| && s[at..at + |body|] == body && k < |ChunksOf(body, size, at)|
    ensures ChunkAt(s, ChunksOf(body, size, at)[k])
    decreases size
  {
    var c := NextSize(size);
    if k == 0 {
      assert s[at..at + c] == s[at..at + |body|][..c];
    } else {
      assert s[at + c..at + |body|] == s[at..at + |body|][c..];
      ChunksOfAt(s, body[c..], size - c, at + c, k - 1);
    }
  }

  /** The payload of a frame whose header is at `at` is in the stream behind that. */
  predicate FrameAt(s: seq<Byte>, p: Arrived, at: nat) {
    var from := at + HEADER;
    from + |p.body| <= |s| && s[from..from + |p.body|] == p.body
  }

  predicate FramesAt(s: seq<Byte>, ps: seq<Arrived>, at: nat) {
    ps != [] ==> FrameAt(s, ps[0], at) && FramesAt(s, ps[1..], at + HEADER + ps[0].size)
  }

  lemma FirstFrameAt(s: seq<Byte>, t: seq<Byte>, at: nat)
    requires at <= |s| && s[at..] == t && |t| >= HEADER
    ensures FrameAt(s, Arrived(Body(t), SizeOf(t)), at)
    ensures Complete(t) ==> at + HEADER + SizeOf(t) <= |s| && s[at + HEADER + SizeOf(t)..] == After(t)
  {
    var from, n := at + HEADER, |Body(t)|;
    assert s[from..from + n] == t[HEADER..HEADER + n];
  }

  lemma {:induction false} FramesInAt(s: seq<Byte>, t: seq<Byte>, at: nat)
    requires at <= |s| && s[at..] == t
    ensures FramesAt(s, FramesIn(t), at)
    decreases |t|
  {
    if |t| >= HEADER {
      FirstFrameAt(s, t, at);
      var more := if Complete(t) then FramesIn(After(t)) else [];
      assert FramesIn(t)[1..] == more;
      if Complete(t) {
        FramesInAt(s, After(t), at + HEADER + SizeOf(t));
      }
    }
  }

  lemma {:induction false} ChunksFromAt(s: seq<Byte>, ps: seq<Arrived>, at: nat, k: nat)
    requires FramesAt(s, ps, at) && k < |ChunksFrom(ps, at)|
    ensures ChunkAt(s, ChunksFrom(ps, at)[k])
  {
    var first := ChunksOf(ps[0].body, ps[0].size, at + HEADER);
    if k < |first| {
      ChunksOfAt(s, ps[0].body, ps[0].size, at + HEADER, k);
    } else {
      ChunksFromAt(s, ps[1..], at + HEADER + ps[0].size, k - |first|);
    }
  }

  /** Every chunk is where it says it is in the stream. */
  lemma ChunksAreThere(s: seq<Byte>, k: nat)
    requires k < |StreamChunks(s)|
    ensures ChunkAt(s, StreamChunks(s)[k])
  {
    assert s[0..] == s;
    FramesInAt(s, s, 0);
    ChunksFromAt(s, FramesIn(s), 0, k);
  }

  /** Behind the text `seen`, chunk `k` is the first that completes an occurrence. */
  predicate FirstCompletes(seen: seq<Byte>, cs: seq<Chunk>, k: nat, needle: seq<Byte>) {
    k < |cs| && !Contains(seen + BytesTo(cs, k), needle) && Contains(seen + BytesTo(cs, k + 1), needle)
  }

  // ----- The searcher -----

  datatype Outcome = Found | ShortRead | Ended

  /** The searcher: it remembers `tail` of what it has seen. */
  class StreamSearcher {
    const needle: seq<Byte>
    var tail: seq<Byte>
    ghost var seen: seq<Byte>

    ghost predicate Valid()
      reads this
    {
      needle != [] && tail == Last(seen, |needle| - 1) && !Contains(seen, needle)
    }

    constructor (needle: seq<Byte>)
      requires needle != []
      ensures Valid() && seen == [] && this.needle == needle
    {
      this.needle, tail, seen := needle, [], [];
    }

    /** One chunk of `consume`. */
    method Feed(chunk: seq<Byte>) returns (found: bool)
      requires Valid()
      modifies this
      ensures found <==> Contains(old(seen) + chunk, needle)
      ensures !found ==> Valid() && seen == old(seen) + chunk
    {
      WindowSuffices(seen, chunk, needle);
      LastOfAppend(seen, chunk, |needle| - 1);
      var window := tail + chunk;
      found := Contains(window, needle);
      if found { return; }
      seen := seen + chunk;
      if |needle| > 1 {
        if |window| >= |needle| - 1 {
          tail := window[|window| - (|needle| - 1)..];
        } else {
          tail := window;
        }
      }
    }

    /**
      `consume`: reads a payload of `size` bytes of which `body` arrives, the reader being at `at`.  `end` is
      where the reader is afterwards: behind the first chunk that completes an occurrence, if there is one.
     */
    method Consume(body: seq<Byte>, size: nat, at: nat) returns (r: Outcome, end: nat, ghost k: nat)
      requires Valid() && |body| <= size
      modifies this
      ensures var cs := ChunksOf(body, size, at);
              && (r == Found ==> FirstCompletes(old(seen), cs, k, needle) && end == cs[k].end)
              && (r != Found ==> Valid() && seen == old(seen) + Bytes(cs) && end == at + |body|)
      ensures r != Found ==> (r == Ended <==> |body| == size)
    {
      ghost var all, done: seq<Chunk> := ChunksOf(body, size, at), [];
      var rest, remaining := body, size;
      end := at;
      ConcatEmpty(seen);
      while remaining > 0
        invariant Valid() && |rest| <= remaining && remaining - |rest| == size - |body|
        invariant end == at + |body| - |rest|
        invariant all == done + ChunksOf(rest, remaining, end) && seen == old(seen) + Bytes(done)
        decreases remaining
      {
        var chunk := NextSize(remaining);
        if chunk > |rest| {
          assert all == done;
          return ShortRead, at + |body|, 0;
        }
        ghost var c := Chunk(rest[..chunk], end + chunk);
        ghost var more := ChunksOf(rest[chunk..], remaining - chunk, end + chunk);
        NextChunk(all, done, c, more);
        ConcatAssociates(old(seen), Bytes(done), c.bytes);
        var found := Feed(rest[..chunk]);
        end := end + chunk;
        if found {
          return Found, end, |done|;
        }
        done := done + [c];
        rest, remaining := rest[chunk..], remaining - chunk;
      }
      assert all == done;
      return Ended, end, 0;
    }
  }

  lemma NextChunk(all: seq<Chunk>, done: seq<Chunk>, c: Chunk, more: seq<Chunk>)
    requires all == done + ([c] + more)
    ensures all == done + [c] + more && all[|done|] == c && Bytes(done + [c]) == Bytes(done) + c.bytes
    ensures BytesTo(all, |done|) == Bytes(done) && BytesTo(all, |done| + 1) == Bytes(done + [c])
  {
    ConcatAssociates(done, [c], more);
    BytesSnoc(done, c);
    BytesOfLonger(done, [c] + more, |done|);
    BytesOfLonger(done + [c], more, |done| + 1);
  }

  lemma BytesOfPart(all: seq<Chunk>, done: seq<Chunk>, cs: seq<Chunk>, more: seq<Chunk>, k: nat)
    requires all == done + (cs + more) && k <= |cs|
    ensures |done| + k <= |all| && BytesTo(all, |done| + k) == Bytes(done) + BytesTo(cs, k)
  {
    BytesBehind(done, cs + more, k);
    BytesOfLonger(cs, more, k);
  }

  lemma {:induction false} ContainedInAll(all: seq<Chunk>, n: nat, needle: seq<Byte>)
    requires n <= |all| && Contains(BytesTo(all, n), needle)
    ensures Contains(Bytes(all), needle)
    decreases |all| - n
  {
    if n < |all| {
      ContainsInLonger(BytesTo(all, n), all[n].bytes, needle);
      ContainedInAll(all, n + 1, needle);
    }
  }

  lemma FirstOfAll(all: seq<Chunk>, seen: seq<Byte>, cs: seq<Chunk>, n: nat, k: nat, needle: seq<Byte>)
    requires FirstCompletes(seen, cs, k, needle) && n < |all|
    requires BytesTo(all, n) == seen + BytesTo(cs, k) && BytesTo(all, n + 1) == seen + BytesTo(cs, k + 1)
    ensures FirstCompletes([], all, n, needle) && Contains(Bytes(all), needle)
  {
    assert [] + BytesTo(all, n) == BytesTo(all, n) && [] + BytesTo(all, n + 1) == BytesTo(all, n + 1);
    ContainedInAll(all, n + 1, needle);
  }

  /** A chunk found in one frame, among the chunks of the stream. */
  lemma FoundInStream(all: seq<Chunk>, done: seq<Chunk>, cs: seq<Chunk>, more: seq<Chunk>, k: nat, needle: seq<Byte>)
    requires all == done + (cs + more) && FirstCompletes(Bytes(done), cs, k, needle)
    ensures FirstCompletes([], all, |done| + k, needle) && all[|done| + k] == cs[k] && Contains(Bytes(all), needle)
  {
    BytesOfPart(all, done, cs, more, k);
    BytesOfPart(all, done, cs, more, k + 1);
    FirstOfAll(all, Bytes(done), cs, |done| + k, k, needle);
  }

  /** Chunk `k` is the first that completes an occurrence, and `read` is its end. */
  ghost predicate Hit(all: seq<Chunk>, k: nat, read: nat, needle: seq<Byte>) {
    FirstCompletes([], all, k, needle) && read == all[k].end && Contains(Bytes(all), needle)
  }

  /** The loop's round for one frame, of which `body` arrives. */
  method SearchFrame(search: StreamSearcher, body: seq<Byte>, size: nat, at: nat, ghost all: seq<Chunk>,
                     ghost done: seq<Chunk>, ghost more: seq<Chunk>)
    returns (r: Outcome, read: nat, ghost k: nat)
    requires search.Valid() && |body| <= size && search.seen == Bytes(done)
    requires all == done + (ChunksOf(body, size, at) + more)
    modifies search
    ensures r == Found ==> Hit(all, k, read, search.needle)
    ensures r != Found ==>
      search.Valid() && search.seen == Bytes(done + ChunksOf(body, size, at)) && read == at + |body|
    ensures r != Found ==> (r == Ended <==> |body| == size)
  {
    r, read, k := search.Consume(body, size, at);
    if r == Found {
      FoundInStream(all, done, ChunksOf(body, size, at), more, k, search.needle);
      k := |done| + k;
    } else {
      BytesConcat(done, ChunksOf(body, size, at));
    }
  }

  /** The stream ends inside a frame's payload. */
  predicate CutShort(s: seq<Byte>)
    decreases |s|
  {
    |s| >= HEADER && (!Complete(s) || CutShort(After(s)))
  }

  /** `rest` is behind the first frame of `s`, which is cut short or not. */
  predicate Behind(s: seq<Byte>, short: bool, rest: seq<Byte>) {
    CutShort(s) <==> short || CutShort(rest)
  }

  /** The header at the head of `s`, and what it announces, as far as it is there. */
  method ReadFrame(s: seq<Byte>) returns (body: seq<Byte>, size: nat, rest: seq<Byte>)
    requires |s| >= HEADER
    ensures FramesIn(s) == [Arrived(body, size)] + FramesIn(rest)
    ensures |body| <= size && |s| == HEADER + |body| + |rest| && (|body| < size ==> rest == [])
    ensures Behind(s, |body| < size, rest)
  {
    body, size, rest := Body(s), SizeOf(s), if Complete(s) then After(s) else [];
  }

  lemma FrameChunks(ps: seq<Arrived>, p: Arrived, more: seq<Arrived>, at: nat)
    requires ps == [p] + more
    ensures ChunksFrom(ps, at) == ChunksOf(p.body, p.size, at + HEADER) + ChunksFrom(more, at + HEADER + p.size)
  {
    assert ps[1..] == more;
  }

  /** The chunks of the first frame and those behind it, of which there are none if it is cut short. */
  lemma ChunksAhead(s: seq<Byte>, at: nat, all: seq<Chunk>, done: seq<Chunk>,
                    body: seq<Byte>, size: nat, rest: seq<Byte>, more: seq<Chunk>)
    requires FramesIn(s) == [Arrived(body, size)] + FramesIn(rest) && (|body| < size ==> rest == [])
    requires all == done + ChunksFrom(FramesIn(s), at) && more == ChunksFrom(FramesIn(rest), at + HEADER + size)
    ensures var cs := ChunksOf(body, size, at + HEADER);
            all == done + (cs + more) == done + cs + more && (|body| < size ==> all == done + cs)
  {
    var cs := ChunksOf(body, size, at + HEADER);
    FrameChunks(FramesIn(s), Arrived(body, size), FramesIn(rest), at);
    ConcatAssociates(done, cs, more);
    if |body| < size {
      assert more == [];
      ConcatEmpty(done + cs);
    }
  }

  /** Of all chunks, those behind `done` are the chunks of `s`, which starts at `at`. */
  ghost predicate Remaining(all: seq<Chunk>, done: seq<Chunk>, s: seq<Byte>, at: nat) {
    all == done + ChunksFrom(FramesIn(s), at)
  }

  /** The frame at the head of `s` with its chunks `cs`, and the stream and the chunks behind it. */
  method NextFrame(s: seq<Byte>, ghost at: nat, ghost all: seq<Chunk>, ghost done: seq<Chunk>)
    returns (body: seq<Byte>, size: nat, rest: seq<Byte>, ghost cs: seq<Chunk>, ghost more: seq<Chunk>)
    requires |s| >= HEADER && Remaining(all, done, s, at)
    ensures cs == ChunksOf(body, size, at + HEADER) && all == done + (cs + more)
    ensures |body| == size ==> Remaining(all, done + cs, rest, at + HEADER + |body|)
    ensures |body| < size ==> all == done + cs && rest == []
    ensures |body| <= size && |s| == HEADER + |body| + |rest| && Behind(s, |body| < size, rest)
  {
    body, size, rest := ReadFrame(s);
    cs, more := ChunksOf(body, size, at + HEADER), ChunksFrom(FramesIn(rest), at + HEADER + size);
    ChunksAhead(s, at, all, done, body, size, rest, more);
  }

  /** The loop's round: `rest` is the stream behind the frame. */
  method SearchNext(search: StreamSearcher, s: seq<Byte>, at: nat, ghost all: seq<Chunk>, ghost done: seq<Chunk>)
    returns (r: Outcome, read: nat, ghost k: nat, ghost done': seq<Chunk>, rest: seq<Byte>)
    requires search.Valid() && |s| >= HEADER && search.seen == Bytes(done) && Remaining(all, done, s, at)
    modifies search
    ensures r == Found ==> Hit(all, k, read, search.needle)
    ensures r != Found ==> search.Valid() && search.seen == Bytes(done') && |rest| < |s| && read + |rest| == at + |s|
    ensures r == Ended ==> Remaining(all, done', rest, read)
    ensures r == ShortRead ==> rest == [] && all == done'
    ensures r != Found ==> Behind(s, r == ShortRead, rest)
  {
    var body, size;
    ghost var cs, more;
    body, size, rest, cs, more := NextFrame(s, at, all, done);
    done' := done + cs;
    r, read, k := SearchFrame(search, body, size, at + HEADER, all, done, more);
  }

  /**
    `searchDockerStream`: found exactly when the needle occurs in the bytes searched.  `read` is how much of
    the stream was read for the answer: up to the end of the first chunk that completes an occurrence, or all.
   */
  method SearchDockerStream(stream: seq<Byte>, needle: seq<Byte>) returns (r: Outcome, read: nat, ghost k: nat)
    ensures r == Found <==> Contains(Searched(stream), needle)
    ensures r == Found && needle != [] ==>
      FirstCompletes([], StreamChunks(stream), k, needle) && read == StreamChunks(stream)[k].end
    ensures needle == [] ==> read == 0
    ensures r != Found ==> read == |stream| && (r == ShortRead <==> CutShort(stream))
  {
    ghost var all, done: seq<Chunk> := StreamChunks(stream), [];
    ChunksAreSearched(stream);
    if needle == [] {
      assert OccursAt(Searched(stream), 0, needle);
      return Found, 0, 0;
    }
    var search := new StreamSearcher(needle);
    var s := stream;
    read := 0;
    while |s| >= HEADER
      invariant search.Valid() && fresh(search) && search.needle == needle
      invariant CutShort(s) <==> CutShort(stream)
      invariant read + |s| == |stream| && Remaining(all, done, s, read) && search.seen == Bytes(done)
      decreases |s|
    {
      r, read, k, done, s := SearchNext(search, s, read, all, done);
      if r != Ended { return; }
    }
    ConcatEmpty(done);
    return Ended, |stream|, 0;
  }
}
