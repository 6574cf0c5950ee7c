/** Finding the movies in a sequence of video sectors (tools/xas_tool.py). */
module Movies {
  import opened Options

  // ---- Sectors ----

  datatype Header = Header(chunk: nat, chunks: nat, frame: nat, size: nat, width: nat, height: nat)

  datatype Sector = Sector(at: nat, header: Header)

  /** What the chunk parser lets through. */
  predicate ValidHeader(h: Header) {
    && h.chunk < h.chunks && h.frame > 0 && 0 < h.size <= h.chunks * 2016
    && h.width > 0 && h.height > 0 && h.width % 2 == 0 && h.height % 2 == 0
  }

  predicate Valid(hs: seq<Header>) { forall k | 0 <= k < |hs| :: ValidHeader(hs[k]) }

  // ---- Movies and the headers they are made of ----

  datatype Frame = Frame(chunks: nat, size: nat)

  /** Frames count from one and share their dimensions, so neither is repeated here. */
  datatype Movie = Movie(width: nat, height: nat, frames: seq<Frame>)

  function FrameHeaders(f: Frame, number: nat, width: nat, height: nat): (hs: seq<Header>)
    ensures |hs| == f.chunks
  {
    seq(f.chunks, k requires 0 <= k < f.chunks => Header(k, f.chunks, number, f.size, width, height))
  }

  /** The headers of frames numbered from number on. */
  function FramesHeaders(fs: seq<Frame>, number: nat, width: nat, height: nat): seq<Header>
    decreases |fs|
  {
    if fs == [] then [] else FrameHeaders(fs[0], number, width, height) + FramesHeaders(fs[1..], number + 1, width, height)
  }

  function Flatten(ms: seq<Movie>): seq<Header> {
    if ms == [] then [] else FramesHeaders(ms[0].frames, 1, ms[0].width, ms[0].height) + Flatten(ms[1..])
  }

  predicate ValidFrame(f: Frame) { f.chunks > 0 && 0 < f.size <= f.chunks * 2016 }

  predicate ValidMovie(m: Movie) {
    && m.width > 0 && m.height > 0 && m.width % 2 == 0 && m.height % 2 == 0
    && m.frames != [] && forall k | 0 <= k < |m.frames| :: ValidFrame(m.frames[k])
  }

  predicate ValidMovies(ms: seq<Movie>) { forall k | 0 <= k < |ms| :: ValidMovie(ms[k]) }

  // ---- The same, header by header ----

  predicate IsNew(h: Header) { h.chunk == 0 && h.frame == 1 }

  predicate Completes(h: Header) { h.chunk + 1 == h.chunks }

  /** The next chunk of the frame, or after the last the first chunk of the next frame or movie. */
  predicate Follows(p: Header, n: Header) {
    if Completes(p) then n.chunk == 0 && (n.frame == 1 || (n.frame == p.frame + 1 && n.width == p.width && n.height == p.height))
    else n == p.(chunk := p.chunk + 1)
  }

  predicate Chained(hs: seq<Header>) { forall k | 0 <= k < |hs| - 1 :: Follows(hs[k], hs[k + 1]) }

  predicate Acceptable(hs: seq<Header>) {
    hs != [] && IsNew(hs[0]) && Completes(hs[|hs| - 1]) && Chained(hs)
  }

  // ---- Both descriptions agree ----

  lemma {:induction false} ChunkOfFrame(hs: seq<Header>, k: nat)
    requires Valid(hs) && Chained(hs) && hs != [] && hs[0].chunk == 0 && k < hs[0].chunks && k < |hs|
    ensures hs[k] == hs[0].(chunk := k)
    decreases k
  {
    if k > 0 {
      ChunkOfFrame(hs, k - 1);
      assert Follows(hs[k - 1], hs[k - 1 + 1]);
    }
  }

  lemma {:induction false} WholeFrame(hs: seq<Header>)
    requires Valid(hs) && Chained(hs) && hs != [] && hs[0].chunk == 0 && Completes(hs[|hs| - 1])
    ensures var c := hs[0].chunks;
            c <= |hs| && hs[..c] == FrameHeaders(Frame(c, hs[0].size), hs[0].frame, hs[0].width, hs[0].height)
            && Valid(hs[c..]) && Chained(hs[c..]) && (c < |hs| ==> Follows(hs[c - 1], hs[c]) && Completes(hs[c - 1]))
  {
    var c := hs[0].chunks;
    if c > |hs| { ChunkOfFrame(hs, |hs| - 1); }
    forall k | 0 <= k < c ensures hs[k] == Header(k, c, hs[0].frame, hs[0].size, hs[0].width, hs[0].height) { ChunkOfFrame(hs, k); }
    forall k | 0 <= k < |hs[c..]| - 1 ensures Follows(hs[c..][k], hs[c..][k + 1]) {
      assert Follows(hs[c + k], hs[c + k + 1]);
    }
    if c < |hs| { assert Follows(hs[c - 1], hs[c - 1 + 1]); }
  }

  lemma {:induction false} BeforeMovie(f: Frame, number: nat, width: nat, height: nat, m: Movie, ms: seq<Movie>)
    ensures FramesHeaders([f], number, width, height) + Flatten([m] + ms)
         == FrameHeaders(f, number, width, height) + (FramesHeaders(m.frames, 1, m.width, m.height) + Flatten(ms))
  {
    assert ([m] + ms)[1..] == ms && [f][1..] == [];
    assert FramesHeaders([], number + 1, width, height) == [];
  }

  lemma {:induction false} BeforeFrame(f: Frame, number: nat, width: nat, height: nat, fs: seq<Frame>, ms: seq<Movie>)
    ensures FramesHeaders([f] + fs, number, width, height) + Flatten(ms)
         == FrameHeaders(f, number, width, height) + (FramesHeaders(fs, number + 1, width, height) + Flatten(ms))
  {
    assert ([f] + fs)[1..] == fs;
  }

  /** The movies an acceptable sequence is made of: the frames up to the next new movie, then the rest. */
  lemma {:induction false} Recovered(hs: seq<Header>) returns (fs: seq<Frame>, ms: seq<Movie>)
    requires Valid(hs) && Chained(hs) && hs != [] && hs[0].chunk == 0 && Completes(hs[|hs| - 1])
    ensures hs == FramesHeaders(fs, hs[0].frame, hs[0].width, hs[0].height) + Flatten(ms)
    ensures fs != [] && (forall k | 0 <= k < |fs| :: ValidFrame(fs[k])) && ValidMovies(ms)
    decreases |hs|
  {
    var h, c := hs[0], hs[0].chunks;
    WholeFrame(hs);
    var f, rest := Frame(c, h.size), hs[c..];
    assert hs == FrameHeaders(f, h.frame, h.width, h.height) + rest;
    if rest == [] {
      fs, ms := [f], [];
      BeforeFrame(f, h.frame, h.width, h.height, [], []);
    } else {
      assert rest[|rest| - 1] == hs[|hs| - 1] && rest[0] == hs[c];
      var fs', ms' := Recovered(rest);
      if rest[0].frame == 1 {
        var m := Movie(rest[0].width, rest[0].height, fs');
        fs, ms := [f], [m] + ms';
        BeforeMovie(f, h.frame, h.width, h.height, m, ms');
      } else {
        fs, ms := [f] + fs', ms';
        BeforeFrame(f, h.frame, h.width, h.height, fs', ms');
      }
    }
  }

  /** The start of what follows a frame: its next frame, or a new movie. */
  lemma {:induction false} FlattenStart(fs: seq<Frame>, number: nat, width: nat, height: nat, ms: seq<Movie>)
    requires (forall k | 0 <= k < |fs| :: ValidFrame(fs[k])) && ValidMovies(ms)
    ensures var hs := FramesHeaders(fs, number, width, height) + Flatten(ms);
            (hs == [] <==> fs == [] && ms == [])
            && (fs != [] ==> hs[0] == Header(0, fs[0].chunks, number, fs[0].size, width, height))
            && (fs == [] && ms != [] ==> IsNew(hs[0]))
  {
    if fs == [] && ms != [] { assert ms[0].frames != []; }
  }

  lemma {:induction false} ChainedJoin(a: seq<Header>, b: seq<Header>)
    requires Chained(a) && Chained(b) && (a != [] && b != [] ==> Follows(a[|a| - 1], b[0]))
    ensures Chained(a + b)
  {}

  lemma {:induction false} FrameChained(f: Frame, number: nat, width: nat, height: nat)
    requires ValidFrame(f)
    ensures var hs := FrameHeaders(f, number, width, height);
            Chained(hs) && hs[0].chunk == 0 && hs[f.chunks - 1] == Header(f.chunks - 1, f.chunks, number, f.size, width, height)
  {}

  ghost predicate ChainedToEnd(hs: seq<Header>) {
    Chained(hs) && (hs != [] ==> Completes(hs[|hs| - 1]))
  }

  lemma {:induction false} FrameBefore(f: Frame, number: nat, width: nat, height: nat, rest: seq<Header>)
    requires ValidFrame(f) && ChainedToEnd(rest)
    requires rest != [] ==> IsNew(rest[0]) || (rest[0].chunk == 0 && rest[0].frame == number + 1 && rest[0].width == width && rest[0].height == height)
    ensures ChainedToEnd(FrameHeaders(f, number, width, height) + rest)
  {
    FrameChained(f, number, width, height);
    ChainedJoin(FrameHeaders(f, number, width, height), rest);
  }

  lemma {:induction false} FlattenChained(fs: seq<Frame>, number: nat, width: nat, height: nat, ms: seq<Movie>)
    requires (forall k | 0 <= k < |fs| :: ValidFrame(fs[k])) && ValidMovies(ms)
    ensures ChainedToEnd(FramesHeaders(fs, number, width, height) + Flatten(ms))
    decreases |ms|, |fs|
  {
    if fs != [] {
      FlattenChained(fs[1..], number + 1, width, height, ms);
      FlattenStart(fs[1..], number + 1, width, height, ms);
      FrameBefore(fs[0], number, width, height, FramesHeaders(fs[1..], number + 1, width, height) + Flatten(ms));
      FramesApart(fs, number, width, height, ms);
    } else if ms != [] {
      FlattenChained(ms[0].frames, 1, ms[0].width, ms[0].height, ms[1..]);
      assert [] + Flatten(ms) == Flatten(ms);
    }
  }

  lemma {:induction false} FramesApart(fs: seq<Frame>, number: nat, width: nat, height: nat, ms: seq<Movie>)
    requires fs != []
    ensures FramesHeaders(fs, number, width, height) + Flatten(ms)
         == FrameHeaders(fs[0], number, width, height) + (FramesHeaders(fs[1..], number + 1, width, height) + Flatten(ms))
  {}

  /** A sequence of valid headers is acceptable exactly if it is a concatenation of movies. */
  lemma {:induction false} AcceptableIff(hs: seq<Header>)
    requires Valid(hs)
    ensures Acceptable(hs) <==> exists ms :: ms != [] && ValidMovies(ms) && Flatten(ms) == hs
  {
    if Acceptable(hs) {
      var fs, rest := Recovered(hs);
      var ms := [Movie(hs[0].width, hs[0].height, fs)] + rest;
      assert ms[1..] == rest && Flatten(ms) == hs;
    }
    forall ms | ms != [] && ValidMovies(ms) && Flatten(ms) == hs ensures Acceptable(hs) {
      FlattenChained([], 1, 0, 0, ms);
      FlattenStart([], 1, 0, 0, ms);
      assert [] + Flatten(ms) == hs;
    }
  }

  lemma {:induction false} FirstFrameOff(fs: seq<Frame>, number: nat, width: nat, height: nat, ms: seq<Movie>)
    requires fs != []
    ensures var hs := FramesHeaders(fs, number, width, height) + Flatten(ms);
            fs[0].chunks <= |hs| && hs[fs[0].chunks..] == FramesHeaders(fs[1..], number + 1, width, height) + Flatten(ms)
  {
    assert FramesHeaders(fs, number, width, height) == FrameHeaders(fs[0], number, width, height) + FramesHeaders(fs[1..], number + 1, width, height);
  }

  lemma {:induction false} SameFrames(fs: seq<Frame>, ms: seq<Movie>, fs': seq<Frame>, ms': seq<Movie>, number: nat, width: nat, height: nat)
    requires (forall k | 0 <= k < |fs| :: ValidFrame(fs[k])) && ValidMovies(ms)
    requires (forall k | 0 <= k < |fs'| :: ValidFrame(fs'[k])) && ValidMovies(ms')
    requires number > 1 || (number == 1 && fs != [] && fs' != [])
    requires FramesHeaders(fs, number, width, height) + Flatten(ms) == FramesHeaders(fs', number, width, height) + Flatten(ms')
    ensures fs == fs' && ms == ms'
    decreases |ms|, |fs| + 1
  {
    var hs := FramesHeaders(fs, number, width, height) + Flatten(ms);
    FlattenStart(fs, number, width, height, ms);
    FlattenStart(fs', number, width, height, ms');
    if fs != [] {
      assert fs' != [] && fs[0] == fs'[0];
      FirstFrameOff(fs, number, width, height, ms);
      FirstFrameOff(fs', number, width, height, ms');
      SameFrames(fs[1..], ms, fs'[1..], ms', number + 1, width, height);
      assert fs == [fs[0]] + fs[1..] && fs' == [fs'[0]] + fs'[1..];
    } else {
      assert fs' == [] && [] + Flatten(ms) == Flatten(ms) && [] + Flatten(ms') == Flatten(ms');
      SameMovies(ms, ms');
    }
  }

  /** The movies are determined by the headers. */
  lemma {:induction false} SameMovies(ms: seq<Movie>, ms': seq<Movie>)
    requires ValidMovies(ms) && ValidMovies(ms') && Flatten(ms) == Flatten(ms')
    ensures ms == ms'
    decreases |ms|, 0
  {
    FlattenStart([], 1, 0, 0, ms);
    FlattenStart([], 1, 0, 0, ms');
    assert [] + Flatten(ms) == Flatten(ms) && [] + Flatten(ms') == Flatten(ms');
    if ms != [] {
      var m, m' := ms[0], ms'[0];
      FlattenStart(m.frames, 1, m.width, m.height, ms[1..]);
      FlattenStart(m'.frames, 1, m'.width, m'.height, ms'[1..]);
      SameFrames(m.frames, ms[1..], m'.frames, ms'[1..], 1, m.width, m.height);
      assert ms == [m] + ms[1..] && ms' == [m'] + ms'[1..];
    }
  }

  // ---- Regions ----

  datatype Region = Region(id: nat, first: nat, last: nat, frameCount: nat, width: nat, height: nat, chunkCounts: set<nat>, sectorCount: nat)

  function HeadersOf(ss: seq<Sector>): (hs: seq<Header>)
    ensures |hs| == |ss| && forall k | 0 <= k < |ss| :: hs[k] == ss[k].header
  {
    seq(|ss|, k requires 0 <= k < |ss| => ss[k].header)
  }

  /** Where movies start among the first n sectors. */
  function Starts(hs: seq<Header>, n: nat): (r: seq<nat>)
    requires n <= |hs|
    ensures forall k | 0 <= k < |r| :: r[k] < n && IsNew(hs[r[k]])
    decreases n
  {
    if n == 0 then [] else if IsNew(hs[n - 1]) then Starts(hs, n - 1) + [n - 1] else Starts(hs, n - 1)
  }

  function FrameNumbers(hs: seq<Header>): seq<nat>
    decreases |hs|
  {
    if hs == [] then []
    else
      var n := |hs| - 1;
      FrameNumbers(hs[..n]) + if hs[n].chunk == 0 then [hs[n].frame] else []
  }

  function RegionOf(ss: seq<Sector>, id: nat, from: nat, to: nat): Region
    requires from < to <= |ss|
  {
    var segment := HeadersOf(ss[from..to]);
    Region(id, ss[from].at, ss[to - 1].at, |FrameNumbers(segment)|, segment[0].width, segment[0].height,
           set k | 0 <= k < |segment| :: segment[k].chunks, to - from)
  }

  function EndOf(starts: seq<nat>, k: nat, n: nat): nat
    requires k < |starts|
  {
    if k + 1 < |starts| then starts[k + 1] else n
  }

  ghost predicate Ordered(starts: seq<nat>, n: nat) {
    forall k | 0 <= k < |starts| :: starts[k] < EndOf(starts, k, n) <= n
  }

  lemma {:induction false} StartsOrdered(hs: seq<Header>, n: nat)
    requires n <= |hs|
    ensures Ordered(Starts(hs, n), n)
    decreases n
  {
    if n > 0 { StartsOrdered(hs, n - 1); }
  }

  /** The regions of an acceptable sequence: one for each stretch from a movie start to the next. */
  ghost predicate AreRegions(ss: seq<Sector>, regions: seq<Region>) {
    var starts := Starts(HeadersOf(ss), |ss|);
    && |regions| == |starts| && Ordered(starts, |ss|)
    && forall k | 0 <= k < |starts| :: regions[k] == RegionOf(ss, k, starts[k], EndOf(starts, k, |ss|))
  }

  /** Between two movie starts no other movie starts. */
  lemma {:induction false} NoStartBetween(hs: seq<Header>, n: nat, k: nat, j: nat)
    requires n <= |hs| && k < |Starts(hs, n)| && Starts(hs, n)[k] < j < EndOf(Starts(hs, n), k, n)
    ensures j < n && !IsNew(hs[j])
    decreases n
  {
    if n > 0 {
      if k < |Starts(hs, n - 1)| {
        EndBefore(hs, n, k);
        if j < n - 1 { NoStartBetween(hs, n - 1, k, j); } else { QuietEnd(hs, n, k, j); }
      }
    }
  }

  lemma {:induction false} QuietEnd(hs: seq<Header>, n: nat, k: nat, j: nat)
    requires 0 < n <= |hs| && k < |Starts(hs, n - 1)| <= |Starts(hs, n)| && n - 1 <= j < EndOf(Starts(hs, n), k, n)
    ensures j == n - 1 && !IsNew(hs[j])
  {
    EndBefore(hs, n, k);
  }

  lemma {:induction false} EndBefore(hs: seq<Header>, n: nat, k: nat)
    requires 0 < n <= |hs| && k < |Starts(hs, n - 1)|
    ensures k < |Starts(hs, n)| && Starts(hs, n)[k] == Starts(hs, n - 1)[k]
    ensures var before := Starts(hs, n - 1);
            EndOf(Starts(hs, n), k, n) == if k + 1 < |before| then before[k + 1] else if IsNew(hs[n - 1]) then n - 1 else n
  {}

  lemma {:induction false} StartsFromZero(hs: seq<Header>, n: nat)
    requires 0 < n <= |hs| && IsNew(hs[0])
    ensures Starts(hs, n) != [] && Starts(hs, n)[0] == 0
    decreases n
  {
    if n > 1 { StartsFromZero(hs, n - 1); } else { assert Starts(hs, 0) == []; }
  }

  // ---- The partition, and each region by itself ----

  lemma {:induction false} NoStarts(hs: seq<Header>, n: nat)
    requires 1 <= n <= |hs| && IsNew(hs[0]) && forall j | 0 < j < n :: !IsNew(hs[j])
    ensures Starts(hs, n) == [0]
    decreases n
  {
    if n > 1 { NoStarts(hs, n - 1); } else { assert Starts(hs, 0) == []; }
  }

  lemma {:induction false} SliceChained(hs: seq<Header>, from: nat, to: nat)
    requires Chained(hs) && from <= to <= |hs|
    ensures Chained(hs[from..to])
  {
    var part := hs[from..to];
    forall j | 0 <= j < |part| - 1 ensures Follows(part[j], part[j + 1]) { assert Follows(hs[from + j], hs[from + j + 1]); }
  }

  ghost predicate IsStretch(hs: seq<Header>, from: nat, to: nat) {
    from < to <= |hs| && IsNew(hs[from]) && (to < |hs| ==> IsNew(hs[to])) && forall j | from < j < to :: !IsNew(hs[j])
  }

  lemma {:induction false} StretchComplete(hs: seq<Header>, from: nat, to: nat)
    requires Acceptable(hs) && IsStretch(hs, from, to)
    ensures Completes(hs[to - 1])
  {
    if to < |hs| { assert Follows(hs[to - 1], hs[to - 1 + 1]); }
  }

  lemma {:induction false} StretchAcceptable(hs: seq<Header>, from: nat, to: nat)
    requires Acceptable(hs) && IsStretch(hs, from, to)
    ensures Acceptable(hs[from..to]) && Starts(hs[from..to], to - from) == [0]
  {
    SliceChained(hs, from, to);
    StretchComplete(hs, from, to);
    NoStarts(hs[from..to], to - from);
  }

  lemma {:induction false} StretchOfStarts(hs: seq<Header>, k: nat)
    requires k < |Starts(hs, |hs|)|
    ensures IsStretch(hs, Starts(hs, |hs|)[k], EndOf(Starts(hs, |hs|), k, |hs|))
  {
    var starts := Starts(hs, |hs|);
    StartsOrdered(hs, |hs|);
    assert starts[k] < EndOf(starts, k, |hs|) <= |hs|;
    forall j | starts[k] < j < EndOf(starts, k, |hs|) ensures !IsNew(hs[j]) { NoStartBetween(hs, |hs|, k, j); }
  }

  /** Every stretch is an acceptable sequence of its own, with a single movie in it. */
  lemma {:induction false} StretchesAcceptable(hs: seq<Header>, k: nat)
    requires Acceptable(hs) && k < |Starts(hs, |hs|)|
    ensures var from, to := Starts(hs, |hs|)[k], EndOf(Starts(hs, |hs|), k, |hs|);
            from < to <= |hs| && Acceptable(hs[from..to]) && Starts(hs[from..to], to - from) == [0]
  {
    StretchOfStarts(hs, k);
    StretchAcceptable(hs, Starts(hs, |hs|)[k], EndOf(Starts(hs, |hs|), k, |hs|));
  }

  lemma {:induction false} StretchRegions(ss: seq<Sector>, from: nat, to: nat, id: nat)
    requires from < to <= |ss| && Starts(HeadersOf(ss[from..to]), to - from) == [0]
    ensures AreRegions(ss[from..to], [RegionOf(ss, id, from, to).(id := 0)])
  {
    var part := ss[from..to];
    assert part[0..|part|] == part;
    assert RegionOf(part, 0, 0, |part|) == RegionOf(ss, id, from, to).(id := 0);
  }

  /** Running the recogniser on the sectors of one region finds that region alone. */
  lemma {:induction false} RegionAlone(ss: seq<Sector>, regions: seq<Region>, k: nat)
    requires Acceptable(HeadersOf(ss)) && AreRegions(ss, regions) && k < |regions|
    ensures var starts := Starts(HeadersOf(ss), |ss|);
            var from, to := starts[k], EndOf(starts, k, |ss|);
            from < to <= |ss| && Acceptable(HeadersOf(ss[from..to])) && AreRegions(ss[from..to], [regions[k].(id := 0)])
  {
    var hs := HeadersOf(ss);
    var from, to := Starts(hs, |hs|)[k], EndOf(Starts(hs, |hs|), k, |hs|);
    StretchesAcceptable(hs, k);
    assert HeadersOf(ss[from..to]) == hs[from..to];
    StretchRegions(ss, from, to, k);
  }

  // ---- The recogniser ----

  /** What the loop has checked between two sectors; dimensions across frames wait until a movie is finished. */
  predicate Continues(p: Header, n: Header) {
    if Completes(p) then n.chunk == 0 && (n.frame == 1 || n.frame == p.frame + 1) else n == p.(chunk := p.chunk + 1)
  }

  predicate SameSize(p: Header, n: Header) { p.width == n.width && p.height == n.height }

  ghost predicate ContinuesTo(hs: seq<Header>, i: nat)
    requires i <= |hs|
  {
    forall k | 0 <= k < i - 1 :: Continues(hs[k], hs[k + 1])
  }

  ghost predicate FollowsTo(hs: seq<Header>, i: nat)
    requires i < |hs|
  {
    forall k | 0 <= k < i :: Follows(hs[k], hs[k + 1])
  }

  datatype Cursor = Cursor(start: nat, previous: Option<Header>, frame: Option<Header>, expected: nat)

  /** After i sectors: the movie started last, and where in its frames the sequence stands. */
  ghost predicate Tracks(hs: seq<Header>, i: nat, c: Cursor)
    requires 0 < i <= |hs|
  {
    var p := hs[i - 1];
    && IsNew(hs[0]) && ContinuesTo(hs, i) && c.start < i && FollowsTo(hs, c.start)
    && IsNew(hs[c.start]) && (forall j | c.start < j < i :: !IsNew(hs[j]))
    && c.expected == (if Completes(p) then 0 else p.chunk + 1)
    && (Completes(p) ==> c.previous == Some(p)) && c.frame == Some(p.(chunk := 0))
  }

  /** The stretch of the movie started last has one size. */
  ghost predicate OneSize(hs: seq<Header>, from: nat, to: nat)
    requires from < to <= |hs|
  {
    forall k | from <= k < to :: SameSize(hs[from], hs[k])
  }

  lemma {:induction false} AcceptableOneSize(hs: seq<Header>, from: nat, end: nat)
    requires Acceptable(hs) && from < end <= |hs| && forall j | from < j < end :: !IsNew(hs[j])
    ensures OneSize(hs, from, end)
    decreases end
  {
    if end > from + 1 {
      AcceptableOneSize(hs, from, end - 1);
      assert Follows(hs[end - 2], hs[end - 2 + 1]);
    }
  }

  /** In a stretch the first chunks carry the frame numbers one, two, three and so on. */
  lemma {:induction false} NumbersCount(hs: seq<Header>, from: nat, end: nat)
    requires Valid(hs) && from < end <= |hs| && IsNew(hs[from]) && (forall j | from < j < end :: !IsNew(hs[j]))
    requires forall k | from <= k < end - 1 :: Continues(hs[k], hs[k + 1])
    ensures FrameNumbers(hs[from..end]) == seq(hs[end - 1].frame, k requires 0 <= k => k + 1)
    decreases end
  {
    var part := hs[from..end];
    assert part[..|part| - 1] == hs[from..end - 1];
    if end == from + 1 {
      assert FrameNumbers([]) == [];
    } else {
      NumbersCount(hs, from, end - 1);
      assert Continues(hs[end - 2], hs[end - 2 + 1]);
    }
  }

  method SameDimensions(segment: seq<Header>) returns (same: bool)
    requires segment != []
    ensures same <==> forall k | 0 <= k < |segment| :: SameSize(segment[0], segment[k])
  {
    for k := 0 to |segment|
      invariant forall j | 0 <= j < k :: SameSize(segment[0], segment[j])
    {
      if !SameSize(segment[0], segment[k]) {
        return false;
      }
    }
    return true;
  }

  method CountFrames(segment: seq<Header>) returns (numbers: seq<nat>)
    ensures numbers == FrameNumbers(segment)
  {
    numbers := [];
    for k := 0 to |segment|
      invariant numbers == FrameNumbers(segment[..k])
    {
      assert segment[..k + 1][..k] == segment[..k];
      if segment[k].chunk == 0 { numbers := numbers + [segment[k].frame]; }
    }
    assert segment[..|segment|] == segment;
  }

  method Finish(ss: seq<Sector>, c: Cursor, id: nat, end: nat) returns (r: Option<Region>)
    requires end <= |ss| && Valid(HeadersOf(ss)) && 0 < end && Tracks(HeadersOf(ss), end, c)
    ensures r.Some? <==> c.expected == 0 && OneSize(HeadersOf(ss), c.start, end)
    ensures r.Some? ==> r.value == RegionOf(ss, id, c.start, end)
  {
    var hs := HeadersOf(ss);
    var segment := hs[c.start..end];
    assert segment == HeadersOf(ss[c.start..end]);
    if c.expected != 0 {
      return None;
    }
    var same := SameDimensions(segment);
    assert forall k | c.start <= k < end :: hs[k] == segment[k - c.start];
    assert same <==> OneSize(hs, c.start, end);
    if !same {
      return None;
    }
    var numbers := CountFrames(segment);
    NumbersCount(hs, c.start, end);
    if numbers != seq(|numbers|, k requires 0 <= k => k + 1) {
      return None;
    }
    return Some(Region(id, ss[c.start].at, ss[end - 1].at, |numbers|, segment[0].width, segment[0].height,
                       set k | 0 <= k < |segment| :: segment[k].chunks, end - c.start));
  }

  /** One sector against what is expected; a new movie expects chunk 0 of frame 1. */
  method Accept(h: Header, c: Cursor) returns (ok: bool, c': Cursor)
    ensures ok <==> h.chunk == c.expected &&
                    if h.chunk == 0 then h.frame == (if c.previous.None? then 1 else c.previous.value.frame + 1)
                    else c.frame.Some? && h.(chunk := 0) == c.frame.value.(chunk := 0)
    ensures ok ==> c'.start == c.start && c'.frame == (if h.chunk == 0 then Some(h) else c.frame)
    ensures ok ==> c'.expected == (if h.chunk + 1 == h.chunks then 0 else h.chunk + 1)
    ensures ok ==> c'.previous == if h.chunk + 1 == h.chunks then Some(h) else c.previous
  {
    c' := c;
    if h.chunk != c.expected {
      return false, c';
    }
    if h.chunk == 0 {
      var expectedFrame := if c.previous.None? then 1 else c.previous.value.frame + 1;
      if h.frame != expectedFrame {
        return false, c';
      }
      c' := c'.(frame := Some(h));
    } else if c.frame.None? || h.(chunk := 0) != c.frame.value.(chunk := 0) {
      return false, c';
    }
    c' := c'.(expected := c.expected + 1);
    if c'.expected == h.chunks {
      c' := c'.(expected := 0, previous := Some(h));
    }
    return true, c';
  }

  // ---- Step by step ----

  lemma {:induction false} StretchFollows(hs: seq<Header>, i: nat, c: Cursor)
    requires 0 < i <= |hs| && Tracks(hs, i, c) && OneSize(hs, c.start, i)
    ensures forall k | 0 <= k < i - 1 :: Follows(hs[k], hs[k + 1])
  {
    forall k | 0 <= k < i - 1 ensures Follows(hs[k], hs[k + 1]) {
      if k >= c.start {
        assert Continues(hs[k], hs[k + 1]) && SameSize(hs[c.start], hs[k]) && SameSize(hs[c.start], hs[k + 1]);
      }
    }
  }

  /** A finished stretch and the start of the next movie. */
  lemma {:induction false} TracksNew(hs: seq<Header>, i: nat, c: Cursor, c': Cursor)
    requires Valid(hs) && 0 < i < |hs| && Tracks(hs, i, c) && OneSize(hs, c.start, i) && c.expected == 0 && IsNew(hs[i])
    requires c'.start == i && c'.frame == Some(hs[i]) && c'.expected == (if Completes(hs[i]) then 0 else 1)
    requires Completes(hs[i]) ==> c'.previous == Some(hs[i])
    ensures Tracks(hs, i + 1, c')
  {
    StretchFollows(hs, i, c);
    assert Completes(hs[i - 1]);
    assert hs[i].(chunk := 0) == hs[i];
  }

  /** Inside a movie a sector is accepted exactly if it continues the one before. */
  lemma {:induction false} AcceptsIff(hs: seq<Header>, i: nat, c: Cursor)
    requires Valid(hs) && 0 < i < |hs| && Tracks(hs, i, c) && !IsNew(hs[i])
    ensures (hs[i].chunk == c.expected &&
             if hs[i].chunk == 0 then hs[i].frame == (if c.previous.None? then 1 else c.previous.value.frame + 1)
             else c.frame.Some? && hs[i].(chunk := 0) == c.frame.value.(chunk := 0))
            <==> Continues(hs[i - 1], hs[i])
  {}

  lemma {:induction false} TracksOn(hs: seq<Header>, i: nat, c: Cursor, c': Cursor)
    requires Valid(hs) && 0 < i < |hs| && Tracks(hs, i, c) && !IsNew(hs[i]) && Continues(hs[i - 1], hs[i])
    requires c'.start == c.start && c'.frame == (if hs[i].chunk == 0 then Some(hs[i]) else c.frame)
    requires c'.expected == (if Completes(hs[i]) then 0 else hs[i].chunk + 1)
    requires c'.previous == if Completes(hs[i]) then Some(hs[i]) else c.previous
    ensures Tracks(hs, i + 1, c')
  {
    assert forall k | 0 <= k < i :: Continues(hs[k], hs[k + 1]);
  }

  /** The regions of the movies finished so far. */
  ghost predicate Finished(ss: seq<Sector>, i: nat, c: Cursor, movies: seq<Region>)
    requires 0 < i <= |ss|
  {
    var starts := Starts(HeadersOf(ss), i);
    && Ordered(starts, i) && |starts| == |movies| + 1 && c.start == starts[|movies|]
    && forall k | 0 <= k < |movies| :: movies[k] == RegionOf(ss, k, starts[k], EndOf(starts, k, i))
  }

  /** Starts a movie at sector i: the one before, if any, is finished first. */
  method NextMovie(ss: seq<Sector>, i: nat, c: Cursor, movies0: seq<Region>) returns (ok: bool, c': Cursor, movies: seq<Region>)
    requires Valid(HeadersOf(ss)) && 0 < i < |ss| && IsNew(ss[i].header)
    requires Tracks(HeadersOf(ss), i, c) && Finished(ss, i, c, movies0)
    ensures ok <==> c.expected == 0 && OneSize(HeadersOf(ss), c.start, i)
    ensures ok ==> Tracks(HeadersOf(ss), i + 1, c') && Finished(ss, i + 1, c', movies)
  {
    ghost var hs := HeadersOf(ss);
    c', movies := Cursor(i, None, None, 0), movies0;
    var region := Finish(ss, c, |movies0|, i);
    if region.None? {
      return false, c', movies;
    }
    movies := movies0 + [region.value];
    ok, c' := Accept(ss[i].header, c');
    StartsOrdered(hs, i + 1);
    TracksNew(hs, i, c, c');
  }

  lemma {:induction false} FinishedOn(ss: seq<Sector>, i: nat, c: Cursor, c': Cursor, movies: seq<Region>)
    requires 0 < i < |ss| && !IsNew(ss[i].header) && Finished(ss, i, c, movies) && c'.start == c.start
    ensures Finished(ss, i + 1, c', movies)
  {
    assert Starts(HeadersOf(ss), i + 1) == Starts(HeadersOf(ss), i);
  }

  method NextSector(ss: seq<Sector>, i: nat, c: Cursor, ghost movies: seq<Region>) returns (ok: bool, c': Cursor)
    requires Valid(HeadersOf(ss)) && 0 < i < |ss| && !IsNew(ss[i].header)
    requires Tracks(HeadersOf(ss), i, c) && Finished(ss, i, c, movies)
    ensures ok <==> Continues(ss[i - 1].header, ss[i].header)
    ensures ok ==> Tracks(HeadersOf(ss), i + 1, c') && Finished(ss, i + 1, c', movies)
  {
    ghost var hs := HeadersOf(ss);
    ok, c' := Accept(ss[i].header, c);
    AcceptsIff(hs, i, c);
    if ok {
      TracksOn(hs, i, c, c');
      FinishedOn(ss, i, c, c', movies);
    }
  }

  lemma {:induction false} AcceptableFollows(hs: seq<Header>, i: nat)
    requires Acceptable(hs) && 0 < i < |hs|
    ensures Follows(hs[i - 1], hs[i])
  {
    assert Follows(hs[i - 1], hs[i - 1 + 1]);
  }

  lemma {:induction false} NeverAcceptable(hs: seq<Header>, i: nat, c: Cursor)
    requires Valid(hs) && 0 < i <= |hs| && Tracks(hs, i, c)
    requires ((i == |hs| || IsNew(hs[i])) && !(c.expected == 0 && OneSize(hs, c.start, i))) || (i < |hs| && !IsNew(hs[i]) && !Continues(hs[i - 1], hs[i]))
    ensures !Acceptable(hs)
  {
    if Acceptable(hs) {
      AcceptableOneSize(hs, c.start, i);
      if i < |hs| { AcceptableFollows(hs, i); }
    }
  }

  // ---- The regions are the movies ----

  /** The sectors hold exactly these movies. */
  ghost predicate Hold(ss: seq<Sector>, ms: seq<Movie>) { ms != [] && ValidMovies(ms) && Flatten(ms) == HeadersOf(ss) }

  function ChunkTotal(fs: seq<Frame>): nat { if fs == [] then 0 else fs[0].chunks + ChunkTotal(fs[1..]) }

  function MovieHeaders(m: Movie): seq<Header> { FramesHeaders(m.frames, 1, m.width, m.height) }

  /** Everything a region reports about a movie but its place. */
  ghost predicate Reports(r: Region, m: Movie) {
    && r.frameCount == |m.frames| && r.width == m.width && r.height == m.height && r.sectorCount == ChunkTotal(m.frames)
    && r.chunkCounts == set k | 0 <= k < |m.frames| :: m.frames[k].chunks
  }

  /** Where movie k begins. */
  function Offset(ms: seq<Movie>, k: nat): nat
    requires k <= |ms|
  {
    if k == 0 then 0 else ChunkTotal(ms[0].frames) + Offset(ms[1..], k - 1)
  }

  lemma {:induction false} FramesLength(fs: seq<Frame>, number: nat, width: nat, height: nat)
    ensures |FramesHeaders(fs, number, width, height)| == ChunkTotal(fs)
    decreases |fs|
  {
    if fs != [] { FramesLength(fs[1..], number + 1, width, height); }
  }

  lemma {:induction false} FlattenLength(ms: seq<Movie>)
    ensures |Flatten(ms)| == Offset(ms, |ms|)
  {
    if ms != [] {
      FramesLength(ms[0].frames, 1, ms[0].width, ms[0].height);
      FlattenLength(ms[1..]);
    }
  }

  /** A header of a frame sequence belongs to one of its frames. */
  lemma {:induction false} HeaderInFrames(fs: seq<Frame>, number: nat, width: nat, height: nat, i: nat) returns (k: nat)
    requires i < |FramesHeaders(fs, number, width, height)|
    ensures k < |fs| && FramesHeaders(fs, number, width, height)[i] in FrameHeaders(fs[k], number + k, width, height)
    ensures FramesHeaders(fs, number, width, height)[i].chunk == 0 && i > 0 ==> k > 0
    decreases |fs|
  {
    var c := fs[0].chunks;
    var hs := FramesHeaders(fs, number, width, height);
    if i < c {
      k := 0;
      assert hs[i] == FrameHeaders(fs[0], number, width, height)[i];
    } else {
      var rest := FramesHeaders(fs[1..], number + 1, width, height);
      assert hs[i] == rest[i - c];
      k := HeaderInFrames(fs[1..], number + 1, width, height, i - c);
      k := k + 1;
    }
  }

  lemma {:induction false} FrameInHeaders(fs: seq<Frame>, number: nat, width: nat, height: nat, k: nat) returns (i: nat)
    requires k < |fs| && fs[k].chunks > 0
    ensures i < |FramesHeaders(fs, number, width, height)| && FramesHeaders(fs, number, width, height)[i].chunks == fs[k].chunks
    decreases |fs|
  {
    if k == 0 {
      i := 0;
      assert FramesHeaders(fs, number, width, height)[0] == FrameHeaders(fs[0], number, width, height)[0];
    } else {
      i := FrameInHeaders(fs[1..], number + 1, width, height, k - 1);
      i := fs[0].chunks + i;
    }
  }

  /** Only the first header of a movie starts one. */
  lemma {:induction false} MovieStarts(m: Movie)
    requires ValidMovie(m)
    ensures var hs := MovieHeaders(m); hs != [] && IsNew(hs[0]) && (forall i | 0 < i < |hs| :: !IsNew(hs[i])) && Starts(hs, |hs|) == [0]
  {
    var hs := MovieHeaders(m);
    assert hs[0] == FrameHeaders(m.frames[0], 1, m.width, m.height)[0];
    forall i | 0 < i < |hs| ensures !IsNew(hs[i]) {
      var k := HeaderInFrames(m.frames, 1, m.width, m.height, i);
    }
    NoStarts(hs, |hs|);
  }

  function Moved(starts: seq<nat>, n: nat): (r: seq<nat>)
    ensures |r| == |starts| && forall k | 0 <= k < |r| :: r[k] == starts[k] + n
  {
    seq(|starts|, k requires 0 <= k < |starts| => starts[k] + n)
  }

  lemma {:induction false} StartsJoin(a: seq<Header>, b: seq<Header>, n: nat)
    requires n <= |b|
    ensures Starts(a + b, |a| + n) == Starts(a, |a|) + Moved(Starts(b, n), |a|)
    decreases n
  {
    if n > 0 {
      StartsJoin(a, b, n - 1);
      assert (a + b)[|a| + n - 1] == b[n - 1];
    } else {
      StartsOfPrefix(a, b, |a|);
      assert Starts(b, 0) == [];
    }
  }

  lemma {:induction false} StartsOfPrefix(a: seq<Header>, b: seq<Header>, n: nat)
    requires n <= |a|
    ensures Starts(a + b, n) == Starts(a, n)
    decreases n
  {
    if n > 0 { StartsOfPrefix(a, b, n - 1); }
  }

  /** Where all the movies begin. */
  function Offsets(ms: seq<Movie>): seq<nat> {
    if ms == [] then [] else [0] + Moved(Offsets(ms[1..]), ChunkTotal(ms[0].frames))
  }

  lemma {:induction false} OffsetAt(ms: seq<Movie>, k: nat)
    requires k < |ms|
    ensures |Offsets(ms)| == |ms| && Offsets(ms)[k] == Offset(ms, k)
  {
    if |ms| > 1 { OffsetAt(ms[1..], if k == 0 then 0 else k - 1); } else { assert Offsets(ms[1..]) == []; }
  }

  /** The movie starts the recogniser sees are the places where the movies begin. */
  lemma {:induction false} StartsAreOffsets(ms: seq<Movie>)
    requires ValidMovies(ms)
    ensures Starts(Flatten(ms), |Flatten(ms)|) == Offsets(ms) && |Offsets(ms)| == |ms|
  {
    if ms != [] {
      var first, rest := MovieHeaders(ms[0]), Flatten(ms[1..]);
      MovieStarts(ms[0]);
      FramesLength(ms[0].frames, 1, ms[0].width, ms[0].height);
      StartsAreOffsets(ms[1..]);
      StartsJoin(first, rest, |rest|);
    } else {
      assert Flatten(ms) == [];
    }
  }

  lemma {:induction false} StretchOfMovie(ms: seq<Movie>, k: nat)
    requires ValidMovies(ms) && k < |ms|
    ensures var hs := Flatten(ms); var starts := Starts(hs, |hs|);
      |starts| == |ms| && starts[k] == Offset(ms, k) && EndOf(starts, k, |hs|) == Offset(ms, k + 1)
  {
    StartsAreOffsets(ms);
    OffsetAt(ms, k);
    if k + 1 < |ms| { OffsetAt(ms, k + 1); } else { FlattenLength(ms); }
  }

  lemma {:induction false} SliceAfter<T>(a: seq<T>, b: seq<T>, lo: nat, hi: nat)
    requires lo <= hi <= |b|
    ensures (a + b)[|a| + lo..|a| + hi] == b[lo..hi]
  {}

  lemma {:induction false} MovieInFlatten(ms: seq<Movie>, k: nat)
    requires k < |ms|
    ensures Offset(ms, k) <= Offset(ms, k + 1) <= |Flatten(ms)|
    ensures Flatten(ms)[Offset(ms, k)..Offset(ms, k + 1)] == MovieHeaders(ms[k])
  {
    var first, rest := MovieHeaders(ms[0]), Flatten(ms[1..]);
    FramesLength(ms[0].frames, 1, ms[0].width, ms[0].height);
    if k == 0 {
      assert Offset(ms, 1) == |first| + Offset(ms[1..], 0) == |first|;
      assert (first + rest)[..|first|] == first;
    } else {
      MovieInFlatten(ms[1..], k - 1);
      var lo, hi := Offset(ms[1..], k - 1), Offset(ms[1..], k);
      assert Offset(ms, k) == |first| + lo && Offset(ms, k + 1) == |first| + hi;
      SliceAfter(first, rest, lo, hi);
    }
  }

  lemma {:induction false} LastHeader(fs: seq<Frame>, number: nat, width: nat, height: nat)
    requires fs != [] && fs[|fs| - 1].chunks > 0
    ensures var hs := FramesHeaders(fs, number, width, height); hs != [] && hs[|hs| - 1].frame == number + |fs| - 1
    decreases |fs|
  {
    if |fs| > 1 {
      LastHeader(fs[1..], number + 1, width, height);
    } else {
      assert FramesHeaders(fs[1..], number + 1, width, height) == [];
      assert FramesHeaders(fs, number, width, height) == FrameHeaders(fs[0], number, width, height);
    }
  }

  lemma {:induction false} MovieContinues(m: Movie)
    requires ValidMovie(m)
    ensures ContinuesTo(MovieHeaders(m), |MovieHeaders(m)|)
  {
    FlattenChained(m.frames, 1, m.width, m.height, []);
    assert MovieHeaders(m) + Flatten([]) == MovieHeaders(m);
    var hs := MovieHeaders(m);
    forall k | 0 <= k < |hs| - 1 ensures Continues(hs[k], hs[k + 1]) { assert Follows(hs[k], hs[k + 1]); }
  }

  /** A movie by itself: as many frame numbers as frames. */
  lemma {:induction false} MovieNumbers(m: Movie)
    requires ValidMovie(m)
    ensures |FrameNumbers(MovieHeaders(m))| == |m.frames|
  {
    var hs := MovieHeaders(m);
    MovieStarts(m);
    MovieContinues(m);
    ValidHeaders(m);
    NumbersCount(hs, 0, |hs|);
    LastHeader(m.frames, 1, m.width, m.height);
    assert hs[0..|hs|] == hs;
  }

  lemma {:induction false} ValidHeaders(m: Movie)
    requires ValidMovie(m)
    ensures Valid(MovieHeaders(m))
  {
    var hs := MovieHeaders(m);
    forall i | 0 <= i < |hs| ensures ValidHeader(hs[i]) {
      var k := HeaderInFrames(m.frames, 1, m.width, m.height, i);
      assert ValidFrame(m.frames[k]);
    }
  }

  lemma {:induction false} MovieChunkCounts(m: Movie)
    requires ValidMovie(m)
    ensures var hs := MovieHeaders(m);
            (set i | 0 <= i < |hs| :: hs[i].chunks) == (set k | 0 <= k < |m.frames| :: m.frames[k].chunks)
  {
    var hs := MovieHeaders(m);
    var counts := set k | 0 <= k < |m.frames| :: m.frames[k].chunks;
    forall i | 0 <= i < |hs| ensures hs[i].chunks in counts {
      var k := HeaderInFrames(m.frames, 1, m.width, m.height, i);
      assert hs[i].chunks == m.frames[k].chunks;
    }
    forall k | 0 <= k < |m.frames| ensures exists i :: 0 <= i < |hs| && hs[i].chunks == m.frames[k].chunks {
      assert ValidFrame(m.frames[k]);
      var i := FrameInHeaders(m.frames, 1, m.width, m.height, k);
    }
  }

  lemma {:induction false} RegionReports(ss: seq<Sector>, id: nat, from: nat, to: nat, m: Movie)
    requires from < to <= |ss| && HeadersOf(ss)[from..to] == MovieHeaders(m) && ValidMovie(m)
    ensures Reports(RegionOf(ss, id, from, to), m)
  {
    var segment := HeadersOf(ss[from..to]);
    assert segment == HeadersOf(ss)[from..to];
    MovieNumbers(m);
    MovieChunkCounts(m);
    FramesLength(m.frames, 1, m.width, m.height);
    var k := HeaderInFrames(m.frames, 1, m.width, m.height, 0);
  }

  /** A region that spans exactly the sectors of movie k and reports it. */
  ghost predicate IsMovieRegion(ss: seq<Sector>, ms: seq<Movie>, k: nat, r: Region)
    requires k < |ms|
  {
    && Offset(ms, k) < Offset(ms, k + 1) <= |ss|
    && r == RegionOf(ss, k, Offset(ms, k), Offset(ms, k + 1)) && Reports(r, ms[k])
  }

  lemma {:induction false} RegionIsMovie(ss: seq<Sector>, ms: seq<Movie>, regions: seq<Region>, k: nat)
    requires Hold(ss, ms) && AreRegions(ss, regions) && k < |ms| == |regions|
    ensures IsMovieRegion(ss, ms, k, regions[k])
  {
    var starts := Starts(HeadersOf(ss), |ss|);
    StretchOfMovie(ms, k);
    assert starts[k] < EndOf(starts, k, |ss|) <= |ss|;
    MovieInFlatten(ms, k);
    RegionReports(ss, k, Offset(ms, k), Offset(ms, k + 1), ms[k]);
  }

  /** One region for every movie, in order, each from where its movie begins to where the next one does. */
  lemma {:induction false} RegionsAreMovies(ss: seq<Sector>, ms: seq<Movie>, regions: seq<Region>)
    requires Hold(ss, ms) && AreRegions(ss, regions)
    ensures AreMovies(ss, ms, regions)
  {
    StartsAreOffsets(ms);
    FlattenLength(ms);
    forall k | 0 <= k < |ms| ensures IsMovieRegion(ss, ms, k, regions[k]) { RegionIsMovie(ss, ms, regions, k); }
  }

  /** The sectors of the regions, one region after the other. */
  function Joined(ss: seq<Sector>, starts: seq<nat>, k: nat): seq<Sector>
    requires Ordered(starts, |ss|) && k <= |starts|
  {
    if k == 0 then [] else Joined(ss, starts, k - 1) + ss[starts[k - 1]..EndOf(starts, k - 1, |ss|)]
  }

  lemma {:induction false} JoinedUpTo(ss: seq<Sector>, starts: seq<nat>, k: nat)
    requires Ordered(starts, |ss|) && starts != [] && starts[0] == 0 && 0 < k <= |starts|
    ensures Joined(ss, starts, k) == ss[..EndOf(starts, k - 1, |ss|)]
    decreases k
  {
    assert starts[k - 1] < EndOf(starts, k - 1, |ss|) <= |ss|;
    if k == 1 {
      assert Joined(ss, starts, 0) == [];
    } else {
      JoinedUpTo(ss, starts, k - 1);
      assert EndOf(starts, k - 2, |ss|) == starts[k - 1];
    }
  }

  /** The regions partition the sectors: each begins where the one before ends, the first at the start, the last at the end. */
  lemma {:induction false} RegionsCover(ss: seq<Sector>)
    requires Acceptable(HeadersOf(ss))
    ensures var starts := Starts(HeadersOf(ss), |ss|); Ordered(starts, |ss|) && Joined(ss, starts, |starts|) == ss
  {
    var starts := Starts(HeadersOf(ss), |ss|);
    StartsOrdered(HeadersOf(ss), |ss|);
    StartsFromZero(HeadersOf(ss), |ss|);
    JoinedUpTo(ss, starts, |starts|);
    assert EndOf(starts, |starts| - 1, |ss|) == |ss| && ss[..|ss|] == ss;
  }

  /** What a result says about the movies in the sectors, whichever they are. */
  ghost predicate Recognised(ss: seq<Sector>, expected: Option<nat>, r: Option<seq<Region>>) {
    && (r.Some? <==> exists ms :: Hold(ss, ms) && (expected.Some? ==> expected.value == |ms|))
    && (r.Some? ==> forall ms | Hold(ss, ms) :: AreMovies(ss, ms, r.value))
  }

  ghost predicate AreMovies(ss: seq<Sector>, ms: seq<Movie>, regions: seq<Region>) {
    |regions| == |ms| && Offset(ms, |ms|) == |ss| && forall k | 0 <= k < |ms| :: IsMovieRegion(ss, ms, k, regions[k])
  }

  lemma {:induction false} RegionsRecognised(ss: seq<Sector>, expected: Option<nat>, r: Option<seq<Region>>)
    requires Valid(HeadersOf(ss))
    requires r.Some? <==> Acceptable(HeadersOf(ss)) && (expected.Some? ==> expected.value == |Starts(HeadersOf(ss), |ss|)|)
    requires r.Some? ==> AreRegions(ss, r.value)
    ensures Recognised(ss, expected, r)
  {
    AcceptableIff(HeadersOf(ss));
    forall ms | Hold(ss, ms) ensures |Starts(HeadersOf(ss), |ss|)| == |ms| { StartsAreOffsets(ms); }
    if r.Some? {
      forall ms | Hold(ss, ms) ensures AreMovies(ss, ms, r.value) { RegionsAreMovies(ss, ms, r.value); }
      var ms :| ms != [] && ValidMovies(ms) && Flatten(ms) == HeadersOf(ss);
      assert Hold(ss, ms);
    }
  }

  /** Finds the movies of an acceptable sequence, and rejects every other. */
  method Discover(ss: seq<Sector>, expected: Option<nat>) returns (r: Option<seq<Region>>)
    requires Valid(HeadersOf(ss))
    ensures r.Some? <==> Acceptable(HeadersOf(ss)) && (expected.Some? ==> expected.value == |Starts(HeadersOf(ss), |ss|)|)
    ensures r.Some? ==> AreRegions(ss, r.value)
    ensures Recognised(ss, expected, r)
  {
    ghost var hs := HeadersOf(ss);
    if ss == [] || !IsNew(ss[0].header) {
      RegionsRecognised(ss, expected, None);
      return None;
    }
    var ok, c := Accept(ss[0].header, Cursor(0, None, None, 0));
    var movies: seq<Region> := [];
    FirstTracked(ss, c);
    for i := 1 to |ss|
      invariant Tracks(hs, i, c) && Finished(ss, i, c, movies)
    {
      ghost var c0 := c;
      if IsNew(ss[i].header) {
        ok, c, movies := NextMovie(ss, i, c, movies);
      } else {
        ok, c := NextSector(ss, i, c, movies);
      }
      if !ok {
        NeverAcceptable(hs, i, c0);
        RegionsRecognised(ss, expected, None);
        return None;
      }
    }
    r := Conclude(ss, c, movies, expected);
    RegionsRecognised(ss, expected, r);
  }

  lemma {:induction false} FirstTracked(ss: seq<Sector>, c: Cursor)
    requires ss != [] && Valid(HeadersOf(ss)) && IsNew(ss[0].header)
    requires c.start == 0 && c.frame == Some(ss[0].header) && c.expected == (if Completes(ss[0].header) then 0 else 1)
    requires Completes(ss[0].header) ==> c.previous == Some(ss[0].header)
    ensures Tracks(HeadersOf(ss), 1, c) && Finished(ss, 1, c, [])
  {
    assert Starts(HeadersOf(ss), 0) == [];
    assert ss[0].header.(chunk := 0) == ss[0].header;
  }

  method Conclude(ss: seq<Sector>, c: Cursor, movies: seq<Region>, expected: Option<nat>) returns (r: Option<seq<Region>>)
    requires ss != [] && Valid(HeadersOf(ss)) && Tracks(HeadersOf(ss), |ss|, c) && Finished(ss, |ss|, c, movies)
    ensures r.Some? <==> Acceptable(HeadersOf(ss)) && (expected.Some? ==> expected.value == |Starts(HeadersOf(ss), |ss|)|)
    ensures r.Some? ==> AreRegions(ss, r.value)
  {
    ghost var hs := HeadersOf(ss);
    var region := Finish(ss, c, |movies|, |ss|);
    if region.None? {
      NeverAcceptable(hs, |ss|, c);
      return None;
    }
    StretchFollows(hs, |ss|, c);
    if expected.Some? && |movies| + 1 != expected.value {
      return None;
    }
    return Some(movies + [region.value]);
  }
}
