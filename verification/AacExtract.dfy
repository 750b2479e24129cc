/** `extractAac` itself: one pass with a moving cursor over boxes, runs and table rows. */
module AacExtract {
  import opened Common
  import opened Bytes
  import opened Mp4Boxes
  import opened AacTrack
  import opened AacFragments

  datatype Range = Range(start: int, end: int)

  /** What the loops carry: `occupied`, `audio`, `position` and `dts` of the original. */
  datatype Progress = Progress(occupied: seq<Range>, audio: seq<AacSample>, position: Option<int>, dts: nat)

  /** The progress is that of having taken exactly `samples`. */
  predicate Reflects(p: Progress, bytes: seq<Byte>, samples: seq<Sample>, rules: Rules)
    requires rules.timescale > 0
  {
    && |p.occupied| == |samples|
    && (forall k | 0 <= k < |samples| :: p.occupied[k] == Range(samples[k].start, samples[k].start + samples[k].size))
    && p.audio == Output(bytes, samples, rules.timescale)
    && p.dts == rules.first + Duration(samples)
  }

  lemma ReflectsSnoc(p: Progress, bytes: seq<Byte>, done: seq<Sample>, s: Sample, rules: Rules)
    requires rules.timescale > 0 && Reflects(p, bytes, done, rules)
    ensures Reflects(Progress(p.occupied + [Range(s.start, s.start + s.size)],
                              p.audio
                              + [AacSample(Payload(bytes, s), Micros(p.dts - rules.first, rules.timescale), true)],
                              Some(s.start + s.size), p.dts + s.duration), bytes, done + [s], rules)
  {
    hide Output, Duration, Micros;
    OutputSnoc(bytes, done, s, rules.timescale);
  }

  lemma LastPlayable(done: seq<Sample>, s: Sample, rules: Rules)
    ensures Playable(done + [s], |done|, rules) <==>
            && 0 < s.duration && s.duration * rules.rate <= 2048 * rules.timescale
            && 0 < s.size <= 65536 && Within(s, rules.mdats)
            && (forall j | 0 <= j < |done| :: Apart(done[j], s))
            && rules.first + Duration(done) + s.duration <= MAX_SAFE
  {
    assert (done + [s])[..|done| + 1] == done + [s] && (done + [s])[..|done|] == done;
    assert forall j | 0 <= j < |done| :: (done + [s])[j] == done[j];
  }

  lemma RowStep(shape: Shape, i: nat)
    ensures RowAt(shape, i + 1) == RowAt(shape, i) + shape.Stride()
  {
  }

  lemma RowInside(shape: Shape, i: nat)
    requires i < shape.count
    ensures RowAt(shape, i) + shape.Stride() <= RowAt(shape, shape.count)
  {
    var rest := shape.count - i - 1;
    assert shape.count * shape.Stride() == i * shape.Stride() + shape.Stride() + rest * shape.Stride();
  }

  /** One table row: duration, size, and the demand that the composition offset is zero. */
  method ReadRow(bytes: seq<Byte>, run: Box, shape: Shape, header: Header, ghost i: nat, row: nat)
    returns (r: Result<Entry>, at: nat)
    requires Inside(run, |bytes|) && i < shape.count && row == RowAt(shape, i)
    ensures at == row + shape.Stride()
    ensures r.Ok? ==> r.value == EntryAt(bytes, shape, header, i) && NoComposition(bytes, shape, i)
    ensures r.Invalid? ==> !NoComposition(bytes, shape, i) || RowAt(shape, shape.count) != run.end
  {
    hide Has, Be32, RowAt;
    RowInside(shape, i);
    at := row + shape.Stride();
    var f, cursor := shape.flags, row;
    var duration, size := header.duration, header.size;
    if Has(f, 0x100) {
      var read := U32(bytes, cursor, run.end);
      if read.Invalid? {
        return Invalid, at;
      }
      duration := read.value;
      cursor := cursor + 4;
    }
    if Has(f, 0x200) {
      var read := U32(bytes, cursor, run.end);
      if read.Invalid? {
        return Invalid, at;
      }
      size := read.value;
      cursor := cursor + 4;
    }
    if Has(f, 0x400) {
      cursor := cursor + 4;
    }
    if Has(f, 0x800) {
      var read := U32(bytes, cursor, run.end);
      if read.Invalid? || read.value != 0 {
        return Invalid, at;
      }
      cursor := cursor + 4;
    }
    assert cursor == at;
    return Ok(Entry(duration, size)), at;
  }

  /** The checks and pushes for one sample; accepts exactly when the sample is playable after `done`. */
  method TakeSample(bytes: seq<Byte>, rules: Rules, before: Progress, entry: Entry, position: int,
      ghost done: seq<Sample>)
    returns (r: Result<Progress>)
    requires rules.timescale > 0 && |bytes| <= MAX_BYTES && forall m | m in rules.mdats :: Inside(m, |bytes|)
    requires Reflects(before, bytes, done, rules)
    ensures var s := Sample(position, entry.size, entry.duration);
            && (r.Ok? <==> Playable(done + [s], |done|, rules))
            && (r.Ok? ==>
                Reflects(r.value, bytes, done + [s], rules)
                && r.value.position == Some(position + entry.size))
  {
    hide Playable, Output, Duration, Micros;
    ghost var s := Sample(position, entry.size, entry.duration);
    LastPlayable(done, s, rules);
    if entry.duration == 0 || entry.duration * rules.rate > 2048 * rules.timescale {
      return Invalid;
    }
    var end := position + entry.size;
    var inside := exists m | m in rules.mdats :: m.data <= position && end <= m.end;
    if entry.size == 0 || entry.size > 65536 || !inside {
      return Invalid;
    }
    var overlaps := exists range | range in before.occupied :: position < range.end && end > range.start;
    if overlaps {
      ghost var range :| range in before.occupied && position < range.end && end > range.start;
      ghost var j :| 0 <= j < |before.occupied| && before.occupied[j] == range;
      assert !Apart(done[j], s);
      return Invalid;
    }
    assert forall j | 0 <= j < |done| :: before.occupied[j] in before.occupied;
    var sample := AacSample(bytes[position..end], Micros(before.dts - rules.first, rules.timescale), true);
    if before.dts + entry.duration > MAX_SAFE {
      return Invalid;
    }
    ReflectsSnoc(before, bytes, done, s, rules);
    return Ok(Progress(before.occupied + [Range(position, end)], before.audio + [sample], Some(end),
        before.dts + entry.duration));
  }

  /** Where a run starts: explicitly, or at the running position. */
  function StartOf(offset: Option<int>, header: Header, position: Option<int>): Option<int> {
    if offset.Some? then Some(header.base + offset.value) else position
  }

  /** The whole list is playable only if its prefix ending at the failed sample is. */
  lemma FailedSample(start: int, entries: seq<Entry>, n: nat, done: seq<Sample>, rules: Rules)
    requires n < |entries|
    requires !Playable(done + Place(start, entries[..n])
               + [Sample(start + Sizes(entries[..n]), entries[n].size, entries[n].duration)], |done| + n, rules)
    ensures !PlayableFrom(done + Place(start, entries), |done|, rules)
  {
    PlaceSnoc(start, entries[..n], entries[n]);
    assert entries[..n] + [entries[n]] == entries[..n + 1];
    PlacePrefix(start, entries, n + 1);
    var short, long := done + Place(start, entries[..n + 1]), done + Place(start, entries);
    assert short == done + Place(start, entries[..n])
           + [Sample(start + Sizes(entries[..n]), entries[n].size, entries[n].duration)];
    assert short <= long;
    if PlayableFrom(long, |done|, rules) {
      PlayablePrefix(short, long, |done|, rules);
    }
  }

  /** The rows of one run, taken one after the other. */
  method ExtractRows(bytes: seq<Byte>, run: Box, shape: Shape, header: Header, rules: Rules, start: int,
      before: Progress, ghost done: seq<Sample>)
    returns (r: Result<Progress>)
    requires Inside(run, |bytes|) && rules.timescale > 0 && |bytes| <= MAX_BYTES
               && forall m | m in rules.mdats :: Inside(m, |bytes|)
    requires ReadShape(bytes, run) == Ok(shape) && Reflects(before, bytes, done, rules)
               && |done| + shape.count <= MAX_SAMPLES
    ensures var plan := DecodeRun(bytes, run, header);
            && (r.Ok? <==> plan.Ok? && PlayableFrom(done + Place(start, plan.value.entries), |done|, rules))
            && (r.Ok? ==> Reflects(r.value, bytes, done + Place(start, plan.value.entries), rules)
                          && r.value.position == Some(start + Sizes(plan.value.entries)))
  {
    hide Has, RowAt, NoComposition, EntryAt, ReadShape, Playable, Reflects, Place, Sizes, Shape.Stride;
    ghost var entries := seq(shape.count, i requires i >= 0 => EntryAt(bytes, shape, header, i));
    ghost var plan := DecodeRun(bytes, run, header);
    assert plan.Ok? ==> plan.value.entries == entries;
    var at, position, progress := shape.table, start, before;
    assert RowAt(shape, 0) == shape.table by { RowZero(shape); }
    PlaceNone(start);
    assert entries[..0] == [] && done + Place(start, entries[..0]) == done;
    for index := 0 to shape.count
      invariant at == RowAt(shape, index) && position == start + Sizes(entries[..index])
      invariant forall i | 0 <= i < index :: NoComposition(bytes, shape, i)
      invariant Reflects(progress, bytes, done + Place(start, entries[..index]), rules)
      invariant index > 0 ==> progress.position == Some(position)
      invariant PlayableFrom(done + Place(start, entries[..index]), |done|, rules)
                  && |Place(start, entries[..index])| == index
    {
      RowStep(shape, index);
      var entry, next := ReadRow(bytes, run, shape, header, index, at);
      if entry.Invalid? {
        return Invalid;
      }
      ghost var taken := done + Place(start, entries[..index]);
      ghost var s := Sample(position, entry.value.size, entry.value.duration);
      var step := TakeSample(bytes, rules, progress, entry.value, position, taken);
      if step.Invalid? {
        FailedSample(start, entries, index, done, rules);
        return Invalid;
      }
      PlaceSnoc(start, entries[..index], entries[index]);
      assert entries[..index] + [entries[index]] == entries[..index + 1];
      assert taken + [s] == done + Place(start, entries[..index + 1]);
      PlayableSnoc(taken, s, |done|, rules);
      progress, at, position := step.value, next, position + entry.value.size;
    }
    assert entries[..shape.count] == entries;
    if at != run.end {
      return Invalid;
    }
    return Ok(progress);
  }

  lemma RowZero(shape: Shape)
    ensures RowAt(shape, 0) == shape.table
  {
  }

  lemma PlaceNone(start: int)
    ensures Place(start, []) == [] && Sizes([]) == 0
  {
  }

  lemma PlayableSnoc(taken: seq<Sample>, s: Sample, from: nat, rules: Rules)
    requires PlayableFrom(taken, from, rules) && |taken| < MAX_SAMPLES && from <= |taken|
    requires Playable(taken + [s], |taken|, rules)
    ensures PlayableFrom(taken + [s], from, rules)
  {
    var long := taken + [s];
    forall k: nat | from <= k < |taken|
      ensures Playable(long, k, rules)
    {
      assert Playable(taken, k, rules) && long[..k + 1] == taken[..k + 1];
      assert forall j | 0 <= j <= k :: long[j] == taken[j];
    }
  }

  /** One trun. */
  method ExtractRun(bytes: seq<Byte>, run: Box, header: Header, rules: Rules, before: Progress, ghost done: seq<Sample>)
    returns (r: Result<Progress>)
    requires Inside(run, |bytes|) && rules.timescale > 0 && |bytes| <= MAX_BYTES
               && forall m | m in rules.mdats :: Inside(m, |bytes|)
    requires Reflects(before, bytes, done, rules) && |done| <= MAX_SAMPLES
    ensures var plan := DecodeRun(bytes, run, header);
            var start := if plan.Ok? then StartOf(plan.value.offset, header, before.position) else None;
            && (r.Ok? <==>
                plan.Ok? && start.Some?
                && PlayableFrom(done + Place(start.value, plan.value.entries), |done|, rules))
            && (r.Ok? ==> Reflects(r.value, bytes, done + Place(start.value, plan.value.entries), rules)
                          && r.value.position == Some(start.value + Sizes(plan.value.entries)))
  {
    hide Has, RowAt, NoComposition, EntryAt, Playable, ReadShape;
    var shape := ReadShape(bytes, run);
    if shape.Invalid? {
      return Invalid;
    }
    if |before.audio| + shape.value.count > MAX_SAMPLES {
      return Invalid;
    }
    var start := StartOf(shape.value.offset, header, before.position);
    if start.None? {
      return Invalid;
    }
    r := ExtractRows(bytes, run, shape.value, header, rules, start.value, before, done);
  }

  /** The fragment whose boxes are open, when all its runs decode. */
  function FragmentOf(bytes: seq<Byte>, open: FragmentBoxes): Fragment
    requires forall run | run in open.runs :: Inside(run, |bytes|)
    requires RunsDecode(bytes, open.runs, open.header)
  {
    Fragment(open.header.base, open.time,
             seq(|open.runs|, k requires 0 <= k < |open.runs| => DecodeRun(bytes, open.runs[k], open.header).value))
  }

  /** If the runs up to k are not playable, neither are all of them. */
  lemma FailedRun(f: Fragment, k: nat, done: seq<Sample>, rules: Rules)
    requires f.Addressed() && k < |f.runs|
    requires !PlayableFrom(done + PlaceRuns(f, k) + Place(RunStart(f, k), f.runs[k].entries),
               |done| + |PlaceRuns(f, k)|, rules)
    ensures !PlayableFrom(done + PlaceRuns(f, |f.runs|), |done|, rules)
  {
    hide PlayableFrom, PlaceRuns, Place, RunStart;
    if PlayableFrom(done + PlaceRuns(f, |f.runs|), |done|, rules) {
      PlaceRunsPrefix(f, k + 1, |f.runs|);
      PlaceRunsStep(f, k);
      var short := done + PlaceRuns(f, k) + Place(RunStart(f, k), f.runs[k].entries);
      assert short == done + PlaceRuns(f, k + 1);
      PlayablePrefix(short, done + PlaceRuns(f, |f.runs|), |done|, rules);
      PlayableLater(short, |done|, |done| + |PlaceRuns(f, k)|, rules);
    }
  }

  lemma PlaceRunsStep(f: Fragment, k: nat)
    requires f.Addressed() && k < |f.runs|
    ensures PlaceRuns(f, k + 1) == PlaceRuns(f, k) + Place(RunStart(f, k), f.runs[k].entries)
  {
  }

  /** All runs of one fragment; `position` starts undefined. */
  method ExtractRuns(bytes: seq<Byte>, open: FragmentBoxes, rules: Rules, before: Progress, ghost done: seq<Sample>)
    returns (r: Result<Progress>)
    requires open.runs != [] && forall run | run in open.runs :: Inside(run, |bytes|)
    requires rules.timescale > 0 && |bytes| <= MAX_BYTES && forall m | m in rules.mdats :: Inside(m, |bytes|)
    requires Reflects(before, bytes, done, rules) && PlayableFrom(done, |done|, rules) && |done| <= MAX_SAMPLES
               && before.position == None
    ensures r.Ok? <==> RunsDecode(bytes, open.runs, open.header)
                       && var f := FragmentOf(bytes, open);
                          f.Addressed() && PlayableFrom(done + PlaceRuns(f, |f.runs|), |done|, rules)
    ensures r.Ok? ==> var f := FragmentOf(bytes, open); Reflects(r.value, bytes, done + PlaceRuns(f, |f.runs|), rules)
  {
    hide DecodeRun, PlayableFrom, Playable, Reflects, Place;
    ghost var whole := RunsDecode(bytes, open.runs, open.header);
    ghost var f := if whole then FragmentOf(bytes, open) else Fragment(0, 0, []);
    ghost var taken := done;
    var progress := before;
    for k := 0 to |open.runs|
      invariant forall i | 0 <= i < k :: DecodeRun(bytes, open.runs[i], open.header).Ok?
      invariant done <= taken && Reflects(progress, bytes, taken, rules) && PlayableFrom(taken, |done|, rules)
      invariant |taken| <= MAX_SAMPLES
      invariant k == 0 ==> progress.position == None && taken == done
      invariant whole && k > 0 ==> f.Addressed()
      invariant whole && f.Addressed() ==> taken == done + PlaceRuns(f, k)
      invariant whole && k > 0 ==> progress.position == Some(RunStart(f, k - 1) + Sizes(f.runs[k - 1].entries))
    {
      ghost var plan := DecodeRun(bytes, open.runs[k], open.header);
      var step := ExtractRun(bytes, open.runs[k], open.header, rules, progress, taken);
      ghost var start := if plan.Ok? then StartOf(plan.value.offset, open.header, progress.position) else None;
      if whole && start.Some? {
        assert plan.value == f.runs[k];
        assert f.Addressed() && start.value == RunStart(f, k);
      }
      if step.Invalid? {
        if whole && f.Addressed() {
          FailedRun(f, k, done, rules);
        }
        return Invalid;
      }
      PlayableJoin(taken, taken + Place(start.value, plan.value.entries), |done|, rules);
      if whole && f.Addressed() {
        assert taken + Place(start.value, plan.value.entries) == done + PlaceRuns(f, k + 1);
      }
      taken := taken + Place(start.value, plan.value.entries);
      progress := step.value;
    }
    return Ok(progress);
  }

  lemma PlayableJoin(taken: seq<Sample>, long: seq<Sample>, from: nat, rules: Rules)
    requires taken <= long && from <= |taken|
    requires PlayableFrom(taken, from, rules) && PlayableFrom(long, |taken|, rules)
    ensures PlayableFrom(long, from, rules) && |long| <= MAX_SAMPLES
  {
    forall k: nat | from <= k < |taken|
      ensures Playable(long, k, rules)
    {
      assert Playable(taken, k, rules) && long[..k + 1] == taken[..k + 1];
      assert forall j | 0 <= j <= k :: long[j] == taken[j];
    }
  }

  /** The fragments of the whole file; a fragment that does not decode counts as empty. */
  function FragmentOr(bytes: seq<Byte>, moof: Box, track: Track): Fragment
    requires Inside(moof, |bytes|)
  {
    match DecodeFragment(bytes, moof, track)
    case Ok(f) => f
    case Invalid => Fragment(0, 0, [])
  }

  lemma PlayableLater(samples: seq<Sample>, from: nat, later: nat, rules: Rules)
    requires from <= later && PlayableFrom(samples, from, rules)
    ensures PlayableFrom(samples, later, rules)
  {
  }

  /** Appending a fragment appends its samples; the clock must continue at the end of those before. */
  lemma NextClock(seen: seq<Fragment>, f: Fragment)
    requires AllAddressed(seen) && ClockContinues(seen) && f.Addressed()
    ensures AllAddressed(seen + [f])
    ensures FileSamples(seen + [f], |seen| + 1) == FileSamples(seen, |seen|) + PlaceRuns(f, |f.runs|)
    ensures ClockContinues(seen + [f]) <==> seen == [] || f.time == seen[0].time + Duration(FileSamples(seen, |seen|))
  {
    hide PlaceRuns, Duration;
    var all := seen + [f];
    assert AllAddressed(all);
    FileSamplesStable(seen, all, |seen|);
    forall k | 0 < k < |seen|
      ensures FileSamples(seen, k) == FileSamples(all, k) && all[k] == seen[k]
    {
      FileSamplesStable(seen, all, k);
    }
    if ClockContinues(all) && seen != [] {
      assert all[|seen|].time == all[0].time + Duration(FileSamples(all, |seen|));
    }
  }

  /** A file is acceptable only if every beginning of it is. */
  lemma AcceptablePrefix(all: seq<Fragment>, n: nat, rules: Rules)
    requires n <= |all| && AllAddressed(all) && ClockContinues(all) && PlayableFrom(FileSamples(all, |all|), 0, rules)
    ensures AllAddressed(all[..n]) && ClockContinues(all[..n]) && PlayableFrom(FileSamples(all[..n], n), 0, rules)
  {
    hide Playable, PlaceRuns, Duration;
    assert AllAddressed(all[..n]);
    forall k | 0 <= k <= n
      ensures FileSamples(all[..n], k) == FileSamples(all, k)
    {
      FileSamplesStable(all[..n], all, k);
    }
    FileSamplesPrefix(all, n, |all|);
    PlayablePrefix(FileSamples(all, n), FileSamples(all, |all|), 0, rules);
  }

  /** The extractor accepts exactly the files whose tables decode to acceptable samples, and
      returns those samples' bytes with the exact time of everything before each of them. */
  method ExtractAac(bytes: seq<Byte>, rate: nat) returns (r: Result<AacResult>)
    ensures r.Ok? <==> Decode(bytes, rate).Ok? && Acceptable(Decode(bytes, rate).value, rate)
    ensures r.Ok? ==> var movie := Decode(bytes, rate).value;
                      r.value == AacResult(Output(bytes, Samples(movie), movie.track.timescale), movie.track.asc)
  {
    hide ReadTrack, DecodeFragment, OpenFragment, PlayableFrom, Playable, FragmentOr, FragmentOf;
    hide Output, PlaceRuns, FileSamples, ClockContinues, Duration, ParseBoxes, BoxAt, Tiles, Select;
    if |bytes| == 0 || |bytes| > MAX_BYTES {
      return Invalid;
    }
    var top :- Boxes(bytes, 0, |bytes|);
    var track :- ReadTrack(bytes, top, rate);
    var mdats, moofs := Select(top, MDAT), Select(top, FourCC("moof"));
    ghost var all := seq(|moofs|, k requires 0 <= k < |moofs| => FragmentOr(bytes, moofs[k], track));
    ghost var movie := Decode(bytes, rate);
    DecodeSteps(bytes, rate, top, track, moofs);
    var rules := Rules(track.timescale, rate, mdats, 0);
    var progress := Progress([], [], None, 0);
    var firstDts, nextDts: Option<nat> := None, None;
    ghost var seen: seq<Fragment> := [];
    NothingTaken(bytes, rules);
    for n := 0 to |moofs|
      invariant |seen| == n && seen == all[..n] && forall k | 0 <= k < n :: DecodeFragment(bytes, moofs[k], track).Ok?
      invariant AllAddressed(seen) && ClockContinues(seen)
      invariant rules == Rules(track.timescale, rate, mdats, if n == 0 then 0 else seen[0].time)
      invariant firstDts == (if n == 0 then None else Some(rules.first))
      invariant Reflects(progress, bytes, FileSamples(seen, n), rules) && PlayableFrom(FileSamples(seen, n), 0, rules)
      invariant nextDts == (if n == 0 then None else Some(progress.dts))
                  && (n == 0 ==> progress.dts == 0 && FileSamples(seen, n) == [])
      invariant |FileSamples(seen, n)| <= MAX_SAMPLES
    {
      ghost var done := FileSamples(seen, n);
      FragmentDecodes(bytes, moofs[n], track);
      var open := OpenFragment(bytes, moofs[n], track);
      if open.Invalid? {
        return Invalid;
      }
      ghost var f := all[n];
      assert all[..n + 1] == seen + [f];
      if f.Addressed() {
        NextClock(seen, f);
      }
      if nextDts.Some? && open.value.time != nextDts.value {
        if movie.Ok? && Acceptable(movie.value, rate) {
          AcceptablePrefix(all, n + 1, RulesOf(movie.value, rate));
          assert false;
        }
        return Invalid;
      }
      if firstDts.None? {
        firstDts := Some(open.value.time);
      }
      rules := Rules(track.timescale, rate, mdats, firstDts.value);
      PlayableNothing(done, rules);
      var runs := ExtractRuns(bytes, open.value, rules,
          Progress(progress.occupied, progress.audio, None, open.value.time), done);
      if runs.Invalid? {
        if movie.Ok? && Acceptable(movie.value, rate) {
          AcceptablePrefix(all, n + 1, RulesOf(movie.value, rate));
          PlayableLater(done + PlaceRuns(f, |f.runs|), 0, |done|, rules);
          assert false;
        }
        return Invalid;
      }
      PlayableJoin(done, done + PlaceRuns(f, |f.runs|), 0, rules);
      progress := runs.value;
      nextDts := Some(progress.dts);
      seen := all[..n + 1];
    }
    assert all[..|moofs|] == all;
    if progress.audio == [] {
      return Invalid;
    }
    return Ok(AacResult(progress.audio, track.asc));
  }

  lemma NothingTaken(bytes: seq<Byte>, rules: Rules)
    requires rules.timescale > 0 && rules.first == 0
    ensures Reflects(Progress([], [], None, 0), bytes, FileSamples([], 0), rules)
    ensures PlayableFrom(FileSamples([], 0), 0, rules) && ClockContinues([]) && FileSamples([], 0) == []
  {
  }

  lemma DecodeSteps(bytes: seq<Byte>, rate: nat, top: seq<Box>, track: Track, moofs: seq<Box>)
    requires 0 < |bytes| <= MAX_BYTES && ParseBoxes(bytes, 0, |bytes|) == Ok(top)
    requires (forall box | box in top :: Inside(box, |bytes|)) && (forall box | box in moofs :: Inside(box, |bytes|))
    requires ReadTrack(bytes, top, rate) == Ok(track) && moofs == Select(top, FourCC("moof"))
    ensures Decode(bytes, rate).Ok? <==> FragmentsDecode(bytes, moofs, track)
    ensures Decode(bytes, rate).Ok? ==>
              Decode(bytes, rate).value
                  == Movie(top, track, seq(|moofs|, k requires 0 <= k < |moofs| => FragmentOr(bytes, moofs[k], track)))
  {
    hide ReadTrack, DecodeFragment, Select, ParseBoxes;
  }

  lemma PlayableNothing(samples: seq<Sample>, rules: Rules)
    requires |samples| <= MAX_SAMPLES
    ensures PlayableFrom(samples, |samples|, rules)
  {
  }

  lemma FragmentDecodes(bytes: seq<Byte>, moof: Box, track: Track)
    requires Inside(moof, |bytes|)
    ensures var open, f := OpenFragment(bytes, moof, track), DecodeFragment(bytes, moof, track);
            && (f.Ok? <==> open.Ok? && RunsDecode(bytes, open.value.runs, open.value.header))
            && (f.Ok? ==>
                f.value == FragmentOf(bytes, open.value) == FragmentOr(bytes, moof, track)
                && f.value.time == open.value.time)
  {
  }
}
