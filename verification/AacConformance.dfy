/** What `extractAac` accepts, told without its code: the format of the tables (`AacFormat`), where they put the
    samples, and what is demanded of the samples together. */
module AacConformance {
  import opened Common
  import opened Bytes
  import opened Mp4Boxes
  import opened AacTrack
  import opened AacFragments
  import opened AacFormat
  import opened AacTheorems

  // ---------------------------------------------------------- where samples lie

  /** Each run starts at its own offset from the base, or where the run before it ends. */
  predicate Starts(f: Fragment, starts: seq<int>) {
    |starts| == |f.runs| && forall k: nat | k < |starts| :: StartsAt(f, starts, k)
  }

  predicate StartsAt(f: Fragment, starts: seq<int>, k: nat)
    requires k < |starts| == |f.runs|
  {
    if f.runs[k].offset.Some? then starts[k] == f.base + f.runs[k].offset.value
    else k > 0 && starts[k] == starts[k - 1] + Total(f.runs[k - 1].entries)
  }

  /** The bytes of a run. */
  function Total(entries: seq<Entry>): nat {
    if entries == [] then 0 else entries[0].size + Total(entries[1..])
  }

  /** The samples of a run lie back to back. */
  function BackToBack(start: int, entries: seq<Entry>): seq<Sample>
    decreases entries
  {
    if entries == [] then []
    else [Sample(start, entries[0].size, entries[0].duration)] + BackToBack(start + entries[0].size, entries[1..])
  }

  /** The samples of a fragment whose runs start there, run by run. */
  function Laid(f: Fragment, starts: seq<int>): seq<Sample>
    requires |starts| == |f.runs|
  {
    Flatten(seq(|starts|, k requires 0 <= k < |starts| => BackToBack(starts[k], f.runs[k].entries)))
  }

  lemma {:induction false} SizesOf(entries: seq<Entry>)
    ensures Sizes(entries) == Total(entries)
  {
    if entries != [] {
      var n := |entries| - 1;
      SizesOf(entries[..n]);
      assert entries == entries[..n] + [entries[n]];
      TotalSnoc(entries[..n], entries[n]);
    }
  }

  lemma {:induction false} TotalSnoc(entries: seq<Entry>, e: Entry)
    ensures Total(entries + [e]) == Total(entries) + e.size
  {
    if entries == [] {
      assert [e][1..] == [];
    } else {
      assert (entries + [e])[1..] == entries[1..] + [e];
      TotalSnoc(entries[1..], e);
    }
  }

  lemma {:induction false} BackToBackSnoc(start: int, entries: seq<Entry>, e: Entry)
    ensures BackToBack(start, entries + [e])
         == BackToBack(start, entries) + [Sample(start + Total(entries), e.size, e.duration)]
    decreases entries
  {
    if entries == [] {
      assert [e][1..] == [];
    } else {
      assert (entries + [e])[1..] == entries[1..] + [e];
      BackToBackSnoc(start + entries[0].size, entries[1..], e);
    }
  }

  lemma {:induction false} PlaceIs(start: int, entries: seq<Entry>)
    ensures Place(start, entries) == BackToBack(start, entries)
  {
    if entries != [] {
      var front, e := entries[..|entries| - 1], entries[|entries| - 1];
      assert entries == front + [e];
      hide Place, BackToBack;
      PlaceIs(start, front);
      PlaceSnoc(start, front, e);
      SizesOf(front);
      BackToBackSnoc(start, front, e);
    }
  }

  /** The starts of the first n runs are those the extractor computes. */
  lemma {:induction false} StartsAre(f: Fragment, starts: seq<int>, k: nat)
    requires f.Addressed() && Starts(f, starts) && k < |f.runs|
    ensures RunStart(f, k) == starts[k]
    decreases k
  {
    assert StartsAt(f, starts, k);
    if f.runs[k].offset.None? {
      StartsAre(f, starts, k - 1);
      SizesOf(f.runs[k - 1].entries);
    }
  }

  lemma {:induction false} RunsLaid(f: Fragment, starts: seq<int>, n: nat)
    requires f.Addressed() && Starts(f, starts) && n <= |f.runs|
    ensures PlaceRuns(f, n)
         == Flatten(seq(|starts|, k requires 0 <= k < |starts| => BackToBack(starts[k], f.runs[k].entries))[..n])
  {
    var lists := seq(|starts|, k requires 0 <= k < |starts| => BackToBack(starts[k], f.runs[k].entries));
    if n > 0 {
      RunsLaid(f, starts, n - 1);
      StartsAre(f, starts, n - 1);
      PlaceIs(starts[n - 1], f.runs[n - 1].entries);
      assert lists[..n] == lists[..n - 1] + [lists[n - 1]];
      FlattenAppend(lists[..n - 1], [lists[n - 1]]);
      assert Flatten([lists[n - 1]]) == lists[n - 1] + Flatten([]) == lists[n - 1];
    }
  }

  /** The samples of an addressed fragment, wherever its runs lie: each run back to back from its own offset, or
      from the end of the run before it. */
  lemma FragmentLaid(f: Fragment) returns (starts: seq<int>)
    requires f.Addressed()
    ensures Starts(f, starts) && PlaceRuns(f, |f.runs|) == Laid(f, starts)
  {
    starts := seq(|f.runs|, k requires 0 <= k < |f.runs| => RunStart(f, k));
    forall k: nat | k < |starts|
      ensures StartsAt(f, starts, k)
    {
      if k > 0 {
        SizesOf(f.runs[k - 1].entries);
      }
    }
    RunsLaid(f, starts, |f.runs|);
    var lists := seq(|starts|, k requires 0 <= k < |starts| => BackToBack(starts[k], f.runs[k].entries));
    assert lists[..|f.runs|] == lists;
  }

  // ------------------------------------------------------ what samples must be

  /** Of the first n fragments, each declares the time at which the samples of the one before it end. */
  predicate Timed(fragments: seq<Fragment>, n: nat)
    requires AllAddressed(fragments) && n <= |fragments|
  {
    forall k | 0 < k < n ::
      fragments[k].time
      == fragments[k - 1].time + Duration(PlaceRuns(fragments[k - 1], |fragments[k - 1].runs|))
  }

  predicate InData(top: seq<Box>, s: Sample) {
    exists m :: m in top && m.kind == [0x6D, 0x64, 0x61, 0x74] && m.data <= s.start && s.start + s.size <= m.end
  }

  /** 1 to 65536 bytes inside an mdat, and at most 2048 frames long. */
  predicate Fine(movie: Movie, rate: nat, s: Sample) {
    && 0 < s.duration && s.duration * rate <= 2048 * movie.track.timescale
    && 0 < s.size <= 65536 && InData(movie.top, s)
  }

  predicate Disjoint(a: Sample, b: Sample) {
    a.start + a.size <= b.start || b.start + b.size <= a.start
  }

  /** Every run can be placed and the decode clock runs on without a gap; there are 1 to 2048 samples, each fine, no
      two overlapping, and the clock stays a safe integer. */
  predicate Plays(movie: Movie, rate: nat) {
    && (forall f | f in movie.fragments :: f.runs != [] && f.runs[0].offset.Some?)
    && AllAddressed(movie.fragments) && Timed(movie.fragments, |movie.fragments|)
    && var samples := Samples(movie);
    && 0 < |samples| <= 2048
    && (forall k: nat | k < |samples| :: Fine(movie, rate, samples[k]))
    && (forall j: nat, k: nat | j < k < |samples| :: Disjoint(samples[j], samples[k]))
    && movie.fragments != [] && movie.fragments[0].time + Duration(samples) <= 9007199254740991
  }

  predicate Counted(fragments: seq<Fragment>, n: nat)
    requires AllAddressed(fragments) && n <= |fragments|
  {
    forall k | 0 < k < n :: fragments[k].time == fragments[0].time + Duration(FileSamples(fragments, k))
  }

  lemma {:induction false} ClockIff(fragments: seq<Fragment>, n: nat)
    requires AllAddressed(fragments) && n <= |fragments|
    ensures Counted(fragments, n) <==> Timed(fragments, n)
  {
    hide PlaceRuns, Duration, FileSamples;
    if n > 1 {
      ClockIff(fragments, n - 1);
      FragmentAdds(fragments, n - 2);
      var f, g := fragments[n - 2], fragments[n - 1];
      assert Counted(fragments, n) <==>
             Counted(fragments, n - 1) && g.time == fragments[0].time + Duration(FileSamples(fragments, n - 1));
      assert Timed(fragments, n) <==>
             Timed(fragments, n - 1) && g.time == f.time + Duration(PlaceRuns(f, |f.runs|));
      assert Counted(fragments, n - 1) ==> f.time == fragments[0].time + Duration(FileSamples(fragments, n - 2));
    }
  }

  lemma FragmentAdds(fragments: seq<Fragment>, k: nat)
    requires AllAddressed(fragments) && k < |fragments|
    ensures Duration(FileSamples(fragments, k + 1))
         == Duration(FileSamples(fragments, k)) + Duration(PlaceRuns(fragments[k], |fragments[k].runs|))
    ensures Duration(FileSamples(fragments, 0)) == 0
  {
    hide PlaceRuns;
    DurationAppend(FileSamples(fragments, k), PlaceRuns(fragments[k], |fragments[k].runs|));
  }

  lemma InDataIff(top: seq<Box>, s: Sample)
    ensures InData(top, s) <==> Within(s, Select(top, MDAT))
  {
    FragmentTypes();
    var at := SelectedFrom(top, MDAT, 0);
    assert top[0..] == top;
    var mdats := Select(top, MDAT);
    if m :| m in top && m.kind == MDATA && m.data <= s.start && s.start + s.size <= m.end {
      var i :| 0 <= i < |top| && top[i] == m;
      var k := PositionOf(top, MDAT, at, i);
      assert mdats[k] == m && m in mdats;
    }
    if m :| m in mdats && m.data <= s.start && s.start + s.size <= m.end {
      var k :| 0 <= k < |mdats| && mdats[k] == m;
      assert m == top[at[k]];
    }
  }

  lemma PlayableIff(movie: Movie, rate: nat, samples: seq<Sample>, first: nat, k: nat)
    requires k < |samples|
    ensures Playable(samples, k, Rules(movie.track.timescale, rate, Select(movie.top, MDAT), first)) <==>
            && Fine(movie, rate, samples[k]) && (forall j: nat | j < k :: Disjoint(samples[j], samples[k]))
            && first + Duration(samples[..k + 1]) <= 9007199254740991
  {
    hide InData, Within, Duration, Select;
    InDataIff(movie.top, samples[k]);
  }

  lemma AllPlayableIff(movie: Movie, rate: nat, samples: seq<Sample>, first: nat)
    requires samples != []
    ensures PlayableFrom(samples, 0, Rules(movie.track.timescale, rate, Select(movie.top, MDAT), first)) <==>
            && |samples| <= 2048 && (forall k: nat | k < |samples| :: Fine(movie, rate, samples[k]))
            && (forall j: nat, k: nat | j < k < |samples| :: Disjoint(samples[j], samples[k]))
            && first + Duration(samples) <= 9007199254740991
  {
    hide Fine, Disjoint, Duration, Select, Playable;
    var rules := Rules(movie.track.timescale, rate, Select(movie.top, MDAT), first);
    forall k: nat | k < |samples|
      ensures Playable(samples, k, rules) <==>
              && Fine(movie, rate, samples[k]) && (forall j: nat | j < k :: Disjoint(samples[j], samples[k]))
              && first + Duration(samples[..k + 1]) <= 9007199254740991
      ensures Duration(samples[..k + 1]) <= Duration(samples)
    {
      PlayableIff(movie, rate, samples, first, k);
      DurationMonotone(samples, k + 1, |samples|);
      assert samples[..|samples|] == samples;
    }
    var last: nat := |samples| - 1;
    assert samples[..last + 1] == samples;
    assert Playable(samples, last, rules) ==> first + Duration(samples) <= 9007199254740991;
  }

  lemma AcceptableIff(movie: Movie, rate: nat)
    ensures Acceptable(movie, rate) <==> Plays(movie, rate)
  {
    hide FileSamples, InData, Duration, Select, PlayableFrom, PlaceRuns, Timed, Fine, Disjoint;
    if AllAddressed(movie.fragments) && movie.fragments != [] {
      ClockIff(movie.fragments, |movie.fragments|);
      if Samples(movie) != [] {
        AllPlayableIff(movie, rate, Samples(movie), movie.fragments[0].time);
      }
    } else {
      NoFragments(movie);
    }
  }

  lemma NoFragments(movie: Movie)
    ensures AllAddressed(movie.fragments) && movie.fragments == [] ==> Samples(movie) == []
  {
  }

  /** The whole demand: the bytes hold a movie in the format, and its samples can be played. */
  ghost predicate Conforms(bytes: seq<Byte>, rate: nat, movie: Movie) {
    FileHeld(bytes, rate, movie) && Plays(movie, rate)
  }

  /** Every byte string is accepted exactly if it conforms. */
  lemma AcceptedIff(bytes: seq<Byte>, rate: nat, movie: Movie)
    ensures Accepted(bytes, rate, movie) <==> Conforms(bytes, rate, movie)
  {
    hide Decode, FileHeld, Acceptable, Plays;
    FileIff(bytes, rate, movie);
    AcceptableIff(movie, rate);
  }
}
