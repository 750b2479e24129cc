/** What the fragments of an accepted file mean. The tables of ISO/IEC 14496-12
    sections 8.8.7 (tfhd), 8.8.8 (trun) and 8.8.12 (tfdt) are addressed here by
    index, field i of sample k at a computed offset; no cursor moves. `AacExtract`
    reads the same tables with the moving cursor of `extractAac`. */
module AacFragments {
  import opened Common
  import opened Bytes
  import opened Mp4Boxes
  import opened AacTrack

  const MAX_SAMPLES: nat := 2048

  function Bit(flags: nat, mask: nat): nat {
    if Has(flags, mask) then 1 else 0
  }

  function Signed32(n: nat): int {
    if n < 0x8000_0000 then n else n - 0x1_0000_0000
  }

  // ------------------------------------------------------------------ tables

  datatype Header = Header(base: nat, duration: nat, size: nat)

  /** tfhd: optional base offset, description, default duration, default size, default flags. */
  function ReadHeader(bytes: seq<Byte>, tfhd: Box, start: nat, track: Track): Result<Header>
    requires Inside(tfhd, |bytes|)
  {
    var full :- FullHeader(bytes, tfhd);
    var owner :- U32(bytes, tfhd.data + 4, tfhd.end);
    var f := full.flags;
    if full.version != 0 || Has(f, 0xFDFFC4) || owner != track.id then Invalid else
      var at := tfhd.data + 8;
      var base :- if Has(f, 1) then U64(bytes, at, tfhd.end) else Ok(start);
      var description :- if Has(f, 2) then U32(bytes, at + 8 * Bit(f, 1), tfhd.end) else Ok(1);
      var fields := at + 8 * Bit(f, 1) + 4 * Bit(f, 2);
      var duration :- if Has(f, 8) then U32(bytes, fields, tfhd.end) else Ok(track.defaultDuration);
      var size :- if Has(f, 16) then U32(bytes, fields + 4 * Bit(f, 8), tfhd.end) else Ok(track.defaultSize);
      if description != 1 || fields + 4 * (Bit(f, 8) + Bit(f, 16) + Bit(f, 32)) != tfhd.end then Invalid
      else Ok(Header(base, duration, size))
  }

  /** tfdt: the decode time of the fragment's first sample. */
  function ReadClock(bytes: seq<Byte>, tfdt: Box): (r: Result<nat>)
    requires Inside(tfdt, |bytes|)
    ensures r.Ok? ==> r.value <= MAX_SAFE
  {
    var full :- FullHeader(bytes, tfdt);
    if full.version > 1 || full.flags != 0 then Invalid
    else if full.version == 1 then U64(bytes, tfdt.data + 4, tfdt.end)
    else U32(bytes, tfdt.data + 4, tfdt.end)
  }

  /** The fixed part of a trun, and where its table starts. */
  datatype Shape = Shape(flags: nat, count: nat, offset: Option<int>, table: nat) {
    function Stride(): nat {
      4 * (Bit(flags, 0x100) + Bit(flags, 0x200) + Bit(flags, 0x400) + Bit(flags, 0x800))
    }
  }

  function ReadShape(bytes: seq<Byte>, run: Box): (r: Result<Shape>)
    requires Inside(run, |bytes|)
    ensures r.Ok? ==> r.value.count > 0
  {
    var full :- FullHeader(bytes, run);
    var count :- U32(bytes, run.data + 4, run.end);
    var f := full.flags;
    if full.version > 1 || Has(f, 0xFFF0FA) || count == 0 then Invalid else
      var table := run.data + 8 + 4 * Bit(f, 1) + 4 * Bit(f, 4);
      if !Has(f, 1) then Ok(Shape(f, count, None, table)) else
        var offset :- U32(bytes, run.data + 8, run.end);
        Ok(Shape(f, count, Some(Signed32(offset)), table))
  }

  /** A table field; reads past the file mean nothing. */
  function FieldAt(bytes: seq<Byte>, at: nat): nat {
    if at + 4 <= |bytes| then Be32(bytes[at..at + 4]) else 0
  }

  datatype Entry = Entry(duration: nat, size: nat)
  datatype Run = Run(offset: Option<int>, entries: seq<Entry>)

  function RowAt(shape: Shape, i: nat): nat {
    shape.table + i * shape.Stride()
  }

  function EntryAt(bytes: seq<Byte>, shape: Shape, header: Header, i: nat): Entry {
    var row, f := RowAt(shape, i), shape.flags;
    Entry(if Has(f, 0x100) then FieldAt(bytes, row) else header.duration,
          if Has(f, 0x200) then FieldAt(bytes, row + 4 * Bit(f, 0x100)) else header.size)
  }

  predicate NoComposition(bytes: seq<Byte>, shape: Shape, i: nat) {
    var f := shape.flags;
    Has(f, 0x800) ==> FieldAt(bytes, RowAt(shape, i) + 4 * (Bit(f, 0x100) + Bit(f, 0x200) + Bit(f, 0x400))) == 0
  }

  function DecodeRun(bytes: seq<Byte>, run: Box, header: Header): Result<Run>
    requires Inside(run, |bytes|)
  {
    var shape :- ReadShape(bytes, run);
    if RowAt(shape, shape.count) == run.end && forall i | 0 <= i < shape.count :: NoComposition(bytes, shape, i)
    then Ok(Run(shape.offset, seq(shape.count, i requires i >= 0 => EntryAt(bytes, shape, header, i))))
    else Invalid
  }

  datatype FragmentBoxes = FragmentBoxes(header: Header, time: nat, runs: seq<Box>)

  function OpenFragment(bytes: seq<Byte>, moof: Box, track: Track): (r: Result<FragmentBoxes>)
    requires Inside(moof, |bytes|)
    ensures r.Ok? ==>
              r.value.runs != [] && r.value.time <= MAX_SAFE
              && forall run | run in r.value.runs :: Inside(run, |bytes|)
  {
    var traf :- Child(bytes, moof, FourCC("traf"));
    var children :- ParseBoxes(bytes, traf.data, traf.end);
    if exists box | box in children :: box.kind !in [FourCC("tfhd"), FourCC("tfdt"), FourCC("trun"), FourCC("sdtp")]
        then Invalid else
      var tfhd :- One(children, FourCC("tfhd"));
      var header :- ReadHeader(bytes, tfhd, moof.start, track);
      var tfdt :- One(children, FourCC("tfdt"));
      var time :- ReadClock(bytes, tfdt);
      var runs := Select(children, FourCC("trun"));
      if runs == [] then Invalid else Ok(FragmentBoxes(header, time, runs))
  }

  datatype Fragment = Fragment(base: nat, time: nat, runs: seq<Run>) {
    /** The first run must say where it starts; later runs may follow on. */
    predicate Addressed() {
      runs != [] && runs[0].offset.Some?
    }
  }

  predicate RunsDecode(bytes: seq<Byte>, runs: seq<Box>, header: Header)
    requires forall run | run in runs :: Inside(run, |bytes|)
  {
    forall k | 0 <= k < |runs| :: DecodeRun(bytes, runs[k], header).Ok?
  }

  function DecodeFragment(bytes: seq<Byte>, moof: Box, track: Track): Result<Fragment>
    requires Inside(moof, |bytes|)
  {
    var open :- OpenFragment(bytes, moof, track);
    if !RunsDecode(bytes, open.runs, open.header) then Invalid else
      Ok(Fragment(open.header.base, open.time,
                  seq(|open.runs|,
                      k requires 0 <= k < |open.runs| => DecodeRun(bytes, open.runs[k], open.header).value)))
  }

  // --------------------------------------------------------------- placement

  datatype Sample = Sample(start: int, size: nat, duration: nat)

  function Sizes(entries: seq<Entry>): nat {
    if entries == [] then 0 else Sizes(entries[..|entries| - 1]) + entries[|entries| - 1].size
  }

  /** Samples of one run lie back to back from `start`. */
  function Place(start: int, entries: seq<Entry>): seq<Sample> {
    seq(|entries|,
        i requires 0 <= i < |entries| => Sample(start + Sizes(entries[..i]), entries[i].size, entries[i].duration))
  }

  /** A run starts at its own offset from the base, or where the run before it ended. */
  function RunStart(f: Fragment, k: nat): int
    requires f.Addressed() && k < |f.runs|
  {
    if f.runs[k].offset.Some? then f.base + f.runs[k].offset.value
    else RunStart(f, k - 1) + Sizes(f.runs[k - 1].entries)
  }

  /** The samples of the first `n` runs. */
  function PlaceRuns(f: Fragment, n: nat): seq<Sample>
    requires f.Addressed() && n <= |f.runs|
  {
    if n == 0 then [] else PlaceRuns(f, n - 1) + Place(RunStart(f, n - 1), f.runs[n - 1].entries)
  }

  predicate AllAddressed(fragments: seq<Fragment>) {
    forall f | f in fragments :: f.Addressed()
  }

  /** The samples of the first `n` fragments. */
  function FileSamples(fragments: seq<Fragment>, n: nat): seq<Sample>
    requires AllAddressed(fragments) && n <= |fragments|
  {
    if n == 0 then [] else FileSamples(fragments, n - 1) + PlaceRuns(fragments[n - 1], |fragments[n - 1].runs|)
  }

  function Duration(samples: seq<Sample>): nat {
    if samples == [] then 0 else Duration(samples[..|samples| - 1]) + samples[|samples| - 1].duration
  }

  // -------------------------------------------------------------- acceptance

  predicate Apart(a: Sample, b: Sample) {
    a.start + a.size <= b.start || b.start + b.size <= a.start
  }

  predicate Within(s: Sample, mdats: seq<Box>) {
    exists m | m in mdats :: m.data <= s.start && s.start + s.size <= m.end
  }

  datatype Rules = Rules(timescale: nat, rate: nat, mdats: seq<Box>, first: nat)

  /** What is demanded of sample k, given the samples before it. */
  predicate Playable(samples: seq<Sample>, k: nat, rules: Rules)
    requires k < |samples|
  {
    var s := samples[k];
    && 0 < s.duration && s.duration * rules.rate <= 2048 * rules.timescale
    && 0 < s.size <= 65536
    && Within(s, rules.mdats)
    && (forall j | 0 <= j < k :: Apart(samples[j], s))
    && rules.first + Duration(samples[..k + 1]) <= MAX_SAFE
  }

  ghost predicate PlayableFrom(samples: seq<Sample>, from: nat, rules: Rules) {
    |samples| <= MAX_SAMPLES && forall k: nat | from <= k < |samples| :: Playable(samples, k, rules)
  }

  datatype Movie = Movie(top: seq<Box>, track: Track, fragments: seq<Fragment>)

  predicate FragmentsDecode(bytes: seq<Byte>, moofs: seq<Box>, track: Track)
    requires forall box | box in moofs :: Inside(box, |bytes|)
  {
    forall k | 0 <= k < |moofs| :: DecodeFragment(bytes, moofs[k], track).Ok?
  }

  function Decode(bytes: seq<Byte>, rate: nat): (r: Result<Movie>)
    ensures r.Ok? ==> Tiles(r.value.top, 0, |bytes|) && r.value.track.timescale > 0
  {
    if |bytes| == 0 || |bytes| > MAX_BYTES then Invalid else
      var top :- ParseBoxes(bytes, 0, |bytes|);
      var track :- ReadTrack(bytes, top, rate);
      var moofs := Select(top, FourCC("moof"));
      if !FragmentsDecode(bytes, moofs, track) then Invalid else
        Ok(Movie(top, track, seq(|moofs|, k requires 0 <= k < |moofs| => DecodeFragment(bytes, moofs[k], track).value)))
  }

  /** Every fragment's clock continues where the samples before it end. */
  predicate ClockContinues(fragments: seq<Fragment>)
    requires AllAddressed(fragments)
  {
    forall k | 0 < k < |fragments| :: fragments[k].time == fragments[0].time + Duration(FileSamples(fragments, k))
  }

  function RulesOf(movie: Movie, rate: nat): Rules {
    Rules(movie.track.timescale, rate, Select(movie.top, MDAT),
        if movie.fragments == [] then 0 else movie.fragments[0].time)
  }

  function Samples(movie: Movie): seq<Sample>
    requires AllAddressed(movie.fragments)
  {
    FileSamples(movie.fragments, |movie.fragments|)
  }

  ghost predicate Acceptable(movie: Movie, rate: nat) {
    && AllAddressed(movie.fragments) && ClockContinues(movie.fragments)
    && Samples(movie) != [] && PlayableFrom(Samples(movie), 0, RulesOf(movie, rate))
  }

  // ------------------------------------------------------------------ output

  datatype AacSample = AacSample(bytes: seq<Byte>, timestamp: nat, key: bool)
  datatype AacResult = AacResult(audio: seq<AacSample>, asc: seq<Byte>)

  /** Ticks as microseconds, rounded to the nearest with halves upwards. */
  function Micros(elapsed: nat, timescale: nat): nat
    requires timescale > 0
  {
    (2 * elapsed * 1_000_000 + timescale) / (2 * timescale)
  }

  function Payload(bytes: seq<Byte>, s: Sample): seq<Byte> {
    if 0 <= s.start && s.start + s.size <= |bytes| then bytes[s.start..s.start + s.size] else []
  }

  /** Each sample with its own bytes and the exact time of everything before it. */
  function Output(bytes: seq<Byte>, samples: seq<Sample>, timescale: nat): (audio: seq<AacSample>)
    requires timescale > 0
    ensures |audio| == |samples|
  {
    seq(|samples|, k requires 0 <= k < |samples| =>
      AacSample(Payload(bytes, samples[k]), Micros(Duration(samples[..k]), timescale), true))
  }

  // ----------------------------------------------------------- stable prefixes

  lemma PlaceSnoc(start: int, entries: seq<Entry>, e: Entry)
    ensures Place(start, entries + [e]) == Place(start, entries) + [Sample(start + Sizes(entries), e.size, e.duration)]
    ensures Sizes(entries + [e]) == Sizes(entries) + e.size
  {
    assert (entries + [e])[..|entries|] == entries;
    forall i | 0 <= i < |entries|
      ensures (entries + [e])[..i] == entries[..i]
    {
    }
  }

  lemma PlacePrefix(start: int, entries: seq<Entry>, n: nat)
    requires n <= |entries|
    ensures Place(start, entries[..n]) <= Place(start, entries)
  {
    forall i | 0 <= i < n
      ensures entries[..n][..i] == entries[..i]
    {
    }
  }

  lemma {:induction false} PlaceRunsPrefix(f: Fragment, n: nat, m: nat)
    requires f.Addressed() && n <= m <= |f.runs|
    ensures PlaceRuns(f, n) <= PlaceRuns(f, m)
    decreases m
  {
    if n < m {
      PlaceRunsPrefix(f, n, m - 1);
    }
  }

  lemma {:induction false} FileSamplesPrefix(fragments: seq<Fragment>, n: nat, m: nat)
    requires AllAddressed(fragments) && n <= m <= |fragments|
    ensures FileSamples(fragments, n) <= FileSamples(fragments, m)
    decreases m
  {
    if n < m {
      FileSamplesPrefix(fragments, n, m - 1);
    }
  }

  /** Earlier samples do not depend on later fragments. */
  lemma {:induction false} FileSamplesStable(fragments: seq<Fragment>, more: seq<Fragment>, n: nat)
    requires AllAddressed(fragments) && AllAddressed(more) && fragments <= more && n <= |fragments|
    ensures FileSamples(fragments, n) == FileSamples(more, n)
    decreases n
  {
    if n > 0 {
      FileSamplesStable(fragments, more, n - 1);
    }
  }

  lemma PlayablePrefix(short: seq<Sample>, long: seq<Sample>, from: nat, rules: Rules)
    requires short <= long && PlayableFrom(long, from, rules)
    ensures PlayableFrom(short, from, rules)
  {
    forall k: nat | from <= k < |short|
      ensures Playable(short, k, rules)
    {
      assert Playable(long, k, rules);
      assert short[..k + 1] == long[..k + 1];
      forall j | 0 <= j < k
        ensures Apart(short[j], short[k])
      {
        assert short[j] == long[j] && short[k] == long[k];
      }
    }
  }

  lemma OutputSnoc(bytes: seq<Byte>, samples: seq<Sample>, s: Sample, timescale: nat)
    requires timescale > 0
    ensures Output(bytes, samples + [s], timescale)
         == Output(bytes, samples, timescale)
             + [AacSample(Payload(bytes, s), Micros(Duration(samples), timescale), true)]
    ensures Duration(samples + [s]) == Duration(samples) + s.duration
  {
    assert (samples + [s])[..|samples|] == samples;
    forall k | 0 <= k < |samples|
      ensures (samples + [s])[..k] == samples[..k]
    {
    }
  }
}
