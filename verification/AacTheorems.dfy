/** What acceptance by `extractAac` guarantees about the samples, for every file. */
module AacTheorems {
  import opened Common
  import opened Bytes
  import opened Mp4Boxes
  import opened AacTrack
  import opened AacFragments
  import opened AacExtract

  // ------------------------------------------------- disjoint ranges fit a file

  predicate DisjointIn(spans: seq<Range>, limit: nat) {
    && (forall s | s in spans :: 0 <= s.start <= s.end <= limit)
    && (forall j, k | 0 <= j < k < |spans| :: spans[j].end <= spans[k].start || spans[k].end <= spans[j].start)
  }

  function Length(spans: seq<Range>): int {
    if spans == [] then 0 else Length(spans[1..]) + (spans[0].end - spans[0].start)
  }

  ghost function Cells(lo: int, hi: int): (cells: set<int>)
    requires lo <= hi
    ensures forall i :: i in cells <==> lo <= i < hi
    ensures |cells| == hi - lo
    decreases hi - lo
  {
    if lo == hi then {} else Cells(lo, hi - 1) + {hi - 1}
  }

  ghost function AllCells(spans: seq<Range>, limit: nat): set<int>
    requires DisjointIn(spans, limit)
  {
    if spans == [] then {} else AllCells(spans[1..], limit) + Cells(spans[0].start, spans[0].end)
  }

  lemma {:induction false} CellOwner(spans: seq<Range>, limit: nat, i: int) returns (k: nat)
    requires DisjointIn(spans, limit) && i in AllCells(spans, limit)
    ensures k < |spans| && spans[k].start <= i < spans[k].end
  {
    if spans[0].start <= i < spans[0].end {
      k := 0;
    } else {
      k := CellOwner(spans[1..], limit, i);
      k := k + 1;
    }
  }

  lemma {:induction false} CellCount(spans: seq<Range>, limit: nat)
    requires DisjointIn(spans, limit)
    ensures |AllCells(spans, limit)| == Length(spans)
  {
    if spans != [] {
      var rest, first := AllCells(spans[1..], limit), Cells(spans[0].start, spans[0].end);
      CellCount(spans[1..], limit);
      forall i | i in rest
        ensures i !in first
      {
        var k := CellOwner(spans[1..], limit, i);
        assert spans[1..][k] == spans[k + 1];
      }
      assert rest !! first;
    }
  }

  lemma SubsetSize(a: set<int>, b: set<int>)
    requires a <= b
    ensures |a| <= |b|
  {
    assert b == a + (b - a);
  }

  lemma DisjointFits(spans: seq<Range>, limit: nat)
    requires DisjointIn(spans, limit)
    ensures Length(spans) <= limit
  {
    CellCount(spans, limit);
    forall i | i in AllCells(spans, limit)
      ensures i in Cells(0, limit)
    {
      var k := CellOwner(spans, limit, i);
    }
    SubsetSize(AllCells(spans, limit), Cells(0, limit));
  }

  lemma {:induction false} LengthAppend(a: seq<Range>, b: seq<Range>)
    ensures Length(a + b) == Length(a) + Length(b)
  {
    if a == [] {
      assert a + b == b;
    } else {
      assert (a + b)[1..] == a[1..] + b;
      LengthAppend(a[1..], b);
    }
  }

  // ------------------------------------------------------------ sample ranges

  function SampleRanges(samples: seq<Sample>): seq<Range> {
    seq(|samples|, k requires 0 <= k < |samples| => Range(samples[k].start, samples[k].start + samples[k].size))
  }

  function HeaderRanges(boxes: seq<Box>): seq<Range> {
    seq(|boxes|, k requires 0 <= k < |boxes| => Range(boxes[k].start, boxes[k].start + 8))
  }

  lemma {:induction false} HeaderLength(boxes: seq<Box>)
    ensures Length(HeaderRanges(boxes)) == 8 * |boxes|
  {
    if boxes != [] {
      assert HeaderRanges(boxes)[1..] == HeaderRanges(boxes[1..]);
      HeaderLength(boxes[1..]);
    }
  }

  /** A range in a box's payload meets no box header at all. */
  lemma PayloadMissesHeaders(boxes: seq<Box>, end: nat, s: Sample, k: nat)
    requires Tiles(boxes, 0, end) && k < |boxes| && Within(s, Select(boxes, MDAT))
    ensures 0 <= s.start && s.start + s.size <= end
    ensures boxes[k].start + 8 <= s.start || s.start + s.size <= boxes[k].start
  {
    var m :| m in Select(boxes, MDAT) && m.data <= s.start && s.start + s.size <= m.end;
    var i :| 0 <= i < |boxes| && boxes[i] == m;
    TilesWithin(boxes, 0, end, i);
    if i < k {
      TilesDisjoint(boxes, 0, end, i, k);
    } else if k < i {
      TilesDisjoint(boxes, 0, end, k, i);
    }
  }

  /** `extractAac` accepts the bytes, and `movie` is what its tables say. */
  ghost predicate Accepted(bytes: seq<Byte>, rate: nat, movie: Movie) {
    Decode(bytes, rate) == Ok(movie) && Acceptable(movie, rate)
  }

  /** Samples of an accepted file are pairwise disjoint, and each lies in the payload of one top-level mdat. */
  lemma SamplesDisjoint(bytes: seq<Byte>, rate: nat, movie: Movie, samples: seq<Sample>, j: nat, k: nat)
    requires Accepted(bytes, rate, movie) && samples == Samples(movie) && j < k < |samples|
    ensures Apart(samples[j], samples[k])
    ensures Within(samples[j], Select(movie.top, MDAT)) && Within(samples[k], Select(movie.top, MDAT))
  {
    assert Playable(samples, j, RulesOf(movie, rate));
    assert Playable(samples, k, RulesOf(movie, rate));
  }

  /** All sample bytes together with one header per top-level box fit in the file. */
  lemma SampleBytesFit(bytes: seq<Byte>, rate: nat, movie: Movie, samples: seq<Sample>)
    requires Accepted(bytes, rate, movie) && samples == Samples(movie)
    ensures Length(SampleRanges(samples)) + 8 * |movie.top| <= |bytes|
  {
    hide ReadTrack, DecodeFragment, ParseBoxes, Select, Tiles, FileSamples, Within, Apart;
    var data, heads, rules := SampleRanges(samples), HeaderRanges(movie.top), RulesOf(movie, rate);
    forall k, i | 0 <= k < |samples| && 0 <= i < |movie.top|
      ensures data[k].start >= 0 && data[k].end <= |bytes|
                && (heads[i].end <= data[k].start || data[k].end <= heads[i].start)
    {
      assert Playable(samples, k, rules);
      PayloadMissesHeaders(movie.top, |bytes|, samples[k], i);
    }
    HeadersDisjoint(movie.top, |bytes|);
    TopNotEmpty(bytes, rate);
    SamplesApart(bytes, rate, movie, samples);
    JoinDisjoint(data, heads, |bytes|);
    DisjointFits(data + heads, |bytes|);
    LengthAppend(data, heads);
    HeaderLength(movie.top);
  }

  lemma SamplesApart(bytes: seq<Byte>, rate: nat, movie: Movie, samples: seq<Sample>)
    requires Accepted(bytes, rate, movie) && samples == Samples(movie)
    ensures DisjointIn(SampleRanges(samples), |bytes|)
  {
    hide ReadTrack, DecodeFragment, ParseBoxes, Select, Tiles, FileSamples, Within;
    TopNotEmpty(bytes, rate);
    forall k | 0 <= k < |samples|
      ensures 0 <= samples[k].start && samples[k].start + samples[k].size <= |bytes|
    {
      assert Playable(samples, k, RulesOf(movie, rate));
      PayloadMissesHeaders(movie.top, |bytes|, samples[k], 0);
    }
    forall j, k | 0 <= j < k < |samples|
      ensures Apart(samples[j], samples[k])
    {
      assert Playable(samples, k, RulesOf(movie, rate));
    }
  }

  lemma JoinDisjoint(a: seq<Range>, b: seq<Range>, limit: nat)
    requires DisjointIn(a, limit) && DisjointIn(b, limit)
    requires forall j, k | 0 <= j < |a| && 0 <= k < |b| :: b[k].end <= a[j].start || a[j].end <= b[k].start
    ensures DisjointIn(a + b, limit)
  {
  }

  lemma HeadersDisjoint(boxes: seq<Box>, end: nat)
    requires Tiles(boxes, 0, end)
    ensures DisjointIn(HeaderRanges(boxes), end)
  {
    forall i | 0 <= i < |boxes|
      ensures boxes[i].start + 8 <= end
    {
      TilesWithin(boxes, 0, end, i);
    }
    forall i, j | 0 <= i < j < |boxes|
      ensures boxes[i].start + 8 <= boxes[j].start
    {
      TilesDisjoint(boxes, 0, end, i, j);
    }
  }

  lemma TopNotEmpty(bytes: seq<Byte>, rate: nat)
    requires Decode(bytes, rate).Ok?
    ensures Decode(bytes, rate).value.top != []
  {
  }

  // --------------------------------------------------------------- timestamps

  lemma {:induction false} DurationMonotone(samples: seq<Sample>, j: nat, k: nat)
    requires j <= k <= |samples|
    ensures Duration(samples[..j]) <= Duration(samples[..k])
    decreases k
  {
    if j < k {
      DurationMonotone(samples, j, k - 1);
      assert samples[..k][..k - 1] == samples[..k - 1];
    }
  }

  /** Rounding is to the nearest microsecond, and keeps order. */
  lemma MicrosNearest(a: nat, b: nat, timescale: nat)
    requires timescale > 0 && a <= b
    ensures 2 * timescale * Micros(a, timescale) <= 2 * 1_000_000 * a + timescale
    ensures 2 * 1_000_000 * a < 2 * timescale * Micros(a, timescale) + timescale
    ensures Micros(a, timescale) <= Micros(b, timescale)
  {
    var unit := 2 * timescale;
    var x, y := 2 * a * 1_000_000 + timescale, 2 * b * 1_000_000 + timescale;
    assert x == x / unit * unit + x % unit;
    assert y == y / unit * unit + y % unit;
    if x / unit > y / unit {
      assert x / unit * unit >= (y / unit + 1) * unit;
    }
  }

  /** Sample k carries its own bytes, and its timestamp is the exact sum of all earlier durations,
      over every run and fragment, rounded once: within half a microsecond, never decreasing. */
  lemma SampleClock(bytes: seq<Byte>, rate: nat, movie: Movie, samples: seq<Sample>, audio: seq<AacSample>, j: nat,
      k: nat)
    requires Accepted(bytes, rate, movie) && samples == Samples(movie) && movie.track.timescale > 0
    requires audio == Output(bytes, samples, movie.track.timescale) && j <= k < |audio|
    ensures var s := samples[k];
              0 <= s.start && s.start + s.size <= |bytes| && audio[k].bytes == bytes[s.start..s.start + s.size]
    ensures var double := 2 * movie.track.timescale * audio[k].timestamp;
              var exact := 2 * 1_000_000 * Duration(samples[..k]);
            double <= exact + movie.track.timescale && exact < double + movie.track.timescale
    ensures audio[j].timestamp <= audio[k].timestamp
  {
    hide Decode, FileSamples, Duration, Micros, Select, Tiles, Acceptable;
    SamplesApart(bytes, rate, movie, samples);
    assert SampleRanges(samples)[k] in SampleRanges(samples);
    DurationMonotone(samples, j, k);
    MicrosNearest(Duration(samples[..j]), Duration(samples[..k]), movie.track.timescale);
    MicrosNearest(Duration(samples[..k]), Duration(samples[..k]), movie.track.timescale);
  }

  /** The end of each fragment's samples is the decode time the next fragment declares. */
  lemma FragmentClock(bytes: seq<Byte>, rate: nat, movie: Movie, k: nat)
    requires Accepted(bytes, rate, movie) && 0 < k < |movie.fragments|
    ensures var f := movie.fragments[k - 1];
              f.Addressed() && movie.fragments[k].time == f.time + Duration(PlaceRuns(f, |f.runs|))
  {
    hide Decode, PlaceRuns;
    var f := movie.fragments[k - 1];
    DurationAppend(FileSamples(movie.fragments, k - 1), PlaceRuns(f, |f.runs|));
    assert FileSamples(movie.fragments, k) == FileSamples(movie.fragments, k - 1) + PlaceRuns(f, |f.runs|);
  }

  lemma {:induction false} DurationAppend(a: seq<Sample>, b: seq<Sample>)
    ensures Duration(a + b) == Duration(a) + Duration(b)
    decreases b
  {
    if b == [] {
      assert a + b == a;
    } else {
      assert (a + b)[..|a + b| - 1] == a + b[..|b| - 1];
      DurationAppend(a, b[..|b| - 1]);
    }
  }
}
