/** The synthetic encoder probe (`chzzk-encoded-probe.ts`): reading the AVC configuration record of
    ISO/IEC 14496-15 section 5.3.3.1, cutting encoded samples into fragments, interleaving two tracks
    and splitting what is sent into bounded messages. */
module EncodedProbe {
  import opened Common
  import opened Bytes

  type Blob = seq<Byte>

  // ------------------------------------------------------- the AVCC record

  datatype Parameters = Parameters(sps: seq<Blob>, pps: seq<Blob>)

  /** `count` length-prefixed parameter sets from `offset` on, and the offset behind them. */
  function ReadSets(config: Blob, offset: nat, count: nat): (r: Result<(seq<Blob>, nat)>)
    requires offset <= |config|
    ensures r.Ok? ==> offset <= r.value.1 <= |config| && |r.value.0| == count
    decreases count
  {
    if count == 0 then Ok(([], offset))
    else if offset + 2 > |config| then Invalid
    else
      var size := config[offset] as int * 256 + config[offset + 1] as int;
      if size == 0 || offset + 2 + size > |config| then Invalid
      else
        var rest :- ReadSets(config, offset + 2 + size, count - 1);
        Ok(([config[offset + 2..offset + 2 + size]] + rest.0, rest.1))
  }

  /** The closure `read`, which advances the shared offset. */
  method Read(config: Blob, start: nat, count: nat) returns (r: Result<(seq<Blob>, nat)>)
    requires start <= |config|
    ensures r == ReadSets(config, start, count)
  {
    var values: seq<Blob>, offset: nat := [], start;
    assert forall rest: seq<Blob> :: [] + rest == rest;
    for index := 0 to count
      invariant offset <= |config|
      invariant match ReadSets(config, offset, count - index)
                case Ok(rest) => ReadSets(config, start, count) == Ok((values + rest.0, rest.1))
                case Invalid => ReadSets(config, start, count) == Invalid
    {
      if offset + 2 > |config| {
        return Invalid;
      }
      var size := config[offset] as int * 256 + config[offset + 1] as int;
      offset := offset + 2;
      if size == 0 || offset + size > |config| {
        return Invalid;
      }
      var value := config[offset..offset + size];
      assert forall rest: seq<Blob> :: values + ([value] + rest) == values + [value] + rest;
      values := values + [value];
      offset := offset + size;
    }
    assert values + [] == values;
    return Ok((values, offset));
  }

  /** `avcParameters`, as one expression. */
  function ReadParameters(config: Blob): Result<Parameters> {
    if |config| < 7 || config[0] != 1 || config[4] % 4 != 3 then Invalid else
      var sps :- ReadSets(config, 6, config[5] % 32);
      if sps.1 >= |config| then Invalid else
        var pps :- ReadSets(config, sps.1 + 1, config[sps.1]);
        if sps.0 == [] || pps.0 == [] then Invalid else Ok(Parameters(sps.0, pps.0))
  }

  method AvcParameters(config: Blob) returns (r: Result<Parameters>)
    ensures r == ReadParameters(config)
  {
    if |config| < 7 || config[0] != 1 || config[4] % 4 != 3 {
      return Invalid;
    }
    var sps :- Read(config, 6, config[5] % 32);
    var offset := sps.1;
    if offset >= |config| {
      return Invalid;
    }
    var pps :- Read(config, offset + 1, config[offset]);
    if sps.0 == [] || pps.0 == [] {
      return Invalid;
    }
    return Ok(Parameters(sps.0, pps.0));
  }

  /** Parameter sets as the record stores them: a 16-bit length before each. */
  function PrintSets(sets: seq<Blob>): Blob {
    if sets == [] then [] else Length(|sets[0]|) + (sets[0] + PrintSets(sets[1..]))
  }

  function Length(n: nat): (b: Blob)
    ensures |b| == 2 && (n < 65536 ==> 256 * b[0] as int + b[1] as int == n)
  {
    [n / 256 % 256, n % 256]
  }

  predicate Sized(sets: seq<Blob>) {
    forall i | 0 <= i < |sets| :: 1 <= |sets[i]| <= 65535
  }

  /** The six bytes in front of the sets announce version 1, four-byte lengths and the number of SPS. */
  predicate Header(head: Blob, count: nat) {
    |head| == 6 && head[0] == 1 && head[4] % 4 == 3 && head[5] % 32 == count
  }

  predicate Printable(head: Blob, p: Parameters) {
    Header(head, |p.sps|) && p.sps != [] && 1 <= |p.pps| <= 255 && Sized(p.sps) && Sized(p.pps)
  }

  /** A record, followed by any extension. */
  function PrintParameters(head: Blob, p: Parameters, extension: Blob): Blob {
    head + (PrintSets(p.sps) + ([|p.pps| % 256] + (PrintSets(p.pps) + extension)))
  }

  /** One length-prefixed set is read exactly where it was printed. */
  lemma SetReadIffPrinted(config: Blob, offset: nat, s: Blob)
    requires offset <= |config|
    ensures (offset + 2 <= |config| && config[offset] as int * 256 + config[offset + 1] as int == |s| && |s| > 0
             && HoldsAt(config, offset + 2, s))
            <==> 1 <= |s| <= 65535 && HoldsAt(config, offset, Length(|s|) + s)
    ensures HoldsAt(config, offset, Length(|s|) + s) ==> offset + 2 + |s| <= |config|
  {
    HoldsSplit(config, offset, Length(|s|), s);
    if offset + 2 <= |config| {
      var two := config[offset..offset + 2];
      assert two == [config[offset], config[offset + 1]];
    }
  }

  /** Reading returns exactly the sets whose printed form stands at the offset. */
  lemma {:induction false} SetsReadIffPrinted(config: Blob, offset: nat, sets: seq<Blob>, end: nat)
    requires offset <= |config|
    ensures ReadSets(config, offset, |sets|) == Ok((sets, end))
            <==> Sized(sets) && HoldsAt(config, offset, PrintSets(sets)) && end == offset + |PrintSets(sets)|
    decreases |sets|
  {
    hide ReadSets, PrintSets, Sized, HoldsAt, Length;
    if sets == [] {
      NoneRead(config, offset);
    } else {
      var s, rest := sets[0], sets[1..];
      FirstRead(config, offset, sets, end);
      SizedSplit(sets);
      SetReadIffPrinted(config, offset, s);
      FirstPrinted(config, offset, sets);
      if offset + 2 + |s| <= |config| {
        SetsReadIffPrinted(config, offset + 2 + |s|, rest, end);
      }
    }
  }

  lemma NoneRead(config: Blob, offset: nat)
    requires offset <= |config|
    ensures ReadSets(config, offset, 0) == Ok(([], offset)) && PrintSets([]) == [] && HoldsAt(config, offset, [])
              && Sized([])
  {
  }

  /** Printed sets stand at an offset when the first one stands there and the others behind it. */
  lemma FirstPrinted(config: Blob, offset: nat, sets: seq<Blob>)
    requires sets != []
    ensures HoldsAt(config, offset, PrintSets(sets)) <==>
            HoldsAt(config, offset, Length(|sets[0]|) + sets[0])
                && HoldsAt(config, offset + 2 + |sets[0]|, PrintSets(sets[1..]))
    ensures |PrintSets(sets)| == 2 + |sets[0]| + |PrintSets(sets[1..])|
  {
    hide HoldsAt;
    var s, rest := sets[0], PrintSets(sets[1..]);
    assert Length(|s|) + (s + rest) == Length(|s|) + s + rest;
    HoldsSplit(config, offset, Length(|s|) + s, rest);
  }

  lemma SizedSplit(sets: seq<Blob>)
    requires sets != []
    ensures Sized(sets) <==> 1 <= |sets[0]| <= 65535 && Sized(sets[1..])
  {
    assert sets == [sets[0]] + sets[1..];
  }

  /** One unfolding of the reader, by the list it returns. */
  lemma FirstRead(config: Blob, offset: nat, sets: seq<Blob>, end: nat)
    requires offset <= |config| && sets != []
    ensures ReadSets(config, offset, |sets|) == Ok((sets, end)) <==>
            && offset + 2 <= |config| && config[offset] as int * 256 + config[offset + 1] as int == |sets[0]|
                && |sets[0]| > 0
            && HoldsAt(config, offset + 2, sets[0])
            && ReadSets(config, offset + 2 + |sets[0]|, |sets| - 1) == Ok((sets[1..], end))
  {
    assert sets == [sets[0]] + sets[1..];
  }

  /** The parser is the inverse of the record's serialisation: it returns `p` exactly on the printed forms
      of `p`, whatever header flags and whatever extension they carry, and rejects every other input. */
  lemma ParametersIffPrinted(config: Blob, p: Parameters)
    ensures ReadParameters(config) == Ok(p) <==>
            exists head, extension :: Printable(head, p) && config == PrintParameters(head, p, extension)
  {
    hide PrintSets, ReadSets, Sized;
    if ReadParameters(config) == Ok(p) {
      ParametersReadPrinted(config, p);
    }
    if head, extension :| Printable(head, p) && config == PrintParameters(head, p, extension) {
      PrintedParametersRead(head, p, extension);
    }
  }

  lemma ParametersReadPrinted(config: Blob, p: Parameters)
    requires ReadParameters(config) == Ok(p)
    ensures exists head, extension :: Printable(head, p) && config == PrintParameters(head, p, extension)
  {
    hide PrintSets, ReadSets, Sized;
    var middle := ReadSets(config, 6, config[5] % 32).value.1;
    var end := ReadSets(config, middle + 1, config[middle]).value.1;
    SetsReadIffPrinted(config, 6, p.sps, middle);
    SetsReadIffPrinted(config, middle + 1, p.pps, end);
    Slices(config, middle, end);
    assert Printable(config[..6], p) && config == PrintParameters(config[..6], p, config[end..]);
  }

  lemma Slices(config: Blob, middle: nat, end: nat)
    requires 6 <= middle < end <= |config|
    ensures config == config[..6] + (config[6..middle] + ([config[middle]] + (config[middle + 1..end] + config[end..])))
  {
    assert config == config[..6] + config[6..];
    assert config[6..] == config[6..middle] + config[middle..];
    assert config[middle..] == [config[middle]] + config[middle + 1..];
    assert config[middle + 1..] == config[middle + 1..end] + config[end..];
  }

  lemma PrintedParametersRead(head: Blob, p: Parameters, extension: Blob)
    requires Printable(head, p)
    ensures ReadParameters(PrintParameters(head, p, extension)) == Ok(p)
  {
    hide PrintSets, ReadSets, Sized;
    var config := PrintParameters(head, p, extension);
    var a, b := PrintSets(p.sps), PrintSets(p.pps);
    var middle := 6 + |a|;
    assert config[6..middle] == a && config[middle] == |p.pps| && config[middle + 1..middle + 1 + |b|] == b;
    assert config[0] == head[0] && config[4] == head[4] && config[5] == head[5];
    SetsReadIffPrinted(config, 6, p.sps, middle);
    SetsReadIffPrinted(config, middle + 1, p.pps, middle + 1 + |b|);
  }

  // -------------------------------------------------------------------- join

  /** `join`: one buffer of the total size, filled part by part. */
  method Join(parts: seq<Blob>) returns (output: array<Byte>)
    ensures fresh(output) && output[..] == Flatten(parts)
  {
    var size := 0;
    for i := 0 to |parts|
      invariant size == |Flatten(parts[..i])|
    {
      FlattenOne(parts, i);
      size := size + |parts[i]|;
    }
    assert parts[..|parts|] == parts;
    output := new Byte[size];
    var offset := 0;
    for i := 0 to |parts|
      invariant offset == |Flatten(parts[..i])| <= output.Length
      invariant output[..offset] == Flatten(parts[..i])
    {
      FlattenOne(parts, i);
      var part := parts[i];
      forall k | 0 <= k < |part| {
        output[offset + k] := part[k];
      }
      assert output[offset..offset + |part|] == part;
      assert output[..offset + |part|] == output[..offset] + output[offset..offset + |part|];
      offset := offset + |part|;
    }
  }

  lemma FlattenOne(parts: seq<Blob>, i: nat)
    requires i < |parts|
    ensures Flatten(parts[..i + 1]) == Flatten(parts[..i]) + parts[i]
    ensures |Flatten(parts[..i + 1])| <= |Flatten(parts)|
  {
    assert parts[..i + 1] == parts[..i] + [parts[i]] && parts == parts[..i + 1] + parts[i + 1..];
    FlattenAppend(parts[..i], [parts[i]]);
    FlattenAppend(parts[..i + 1], parts[i + 1..]);
    assert Flatten([parts[i]]) == parts[i];
  }

  // --------------------------------------------------------------- fragments

  datatype Kind = Video | Audio
  datatype Sample = Sample(bytes: Blob, timestamp: int, key: bool)

  /** What a fragment header says of one sample; composition offsets are always 0. */
  datatype Entry = Entry(size: nat, duration: nat, dependsOn: nat, isNonSync: nat)
  datatype Track = Track(kind: Kind, id: nat, entries: seq<Entry>)

  /** `MP4.moof` (sequence number, base time, track) and `MP4.mdat`, whatever bytes they produce. */
  datatype Muxer = Muxer(moof: (nat, nat, Track) -> Blob, mdat: Blob -> Blob)

  datatype Fragment = Fragment(trackIndex: nat, time: real, data: Blob)

  function Payloads(group: seq<Sample>): seq<Blob> {
    seq(|group|, i requires 0 <= i < |group| => group[i].bytes)
  }

  function Entries(group: seq<Sample>, duration: nat): seq<Entry> {
    seq(|group|, i requires 0 <= i < |group| =>
      Entry(|group[i].bytes|, duration, if group[i].key then 2 else 1, if group[i].key then 0 else 1))
  }

  /** A fragment before it is turned into bytes. */
  datatype Piece = Piece(sequence: nat, base: nat, entries: seq<Entry>, payload: Blob) {
    function Emit(muxer: Muxer, kind: Kind, id: nat, timescale: nat): Fragment
      requires timescale > 0
    {
      Fragment(if kind == Video then 0 else 1, base as real / timescale as real,
        muxer.moof(sequence, base, Track(kind, id, entries)) + muxer.mdat(payload))
    }
  }

  function Group(samples: seq<Sample>, start: nat, perFragment: nat): seq<Sample>
    requires start <= |samples|
  {
    if start + perFragment <= |samples| then samples[start..start + perFragment] else samples[start..]
  }

  /** The decode time of sample `n`: all durations before it. */
  function Ticks(n: nat, duration: nat): nat {
    n * duration
  }

  lemma TicksAdd(m: nat, n: nat, duration: nat)
    ensures Ticks(m + n, duration) == Ticks(m, duration) + Ticks(n, duration)
    ensures Ticks(1, duration) == duration
    ensures n > 0 && duration > 0 ==> Ticks(n, duration) > 0
  {
  }

  /** One group of samples as fragment number `sequence`, starting at `base`. */
  function PieceOf(group: seq<Sample>, sequence: nat, base: nat, duration: nat): Piece {
    Piece(sequence, base, Entries(group, duration), Flatten(Payloads(group)))
  }

  /** The pieces of the samples from `start` on. */
  function Pieces(samples: seq<Sample>, start: nat, sequence: nat, perFragment: nat, duration: nat): seq<Piece>
    requires perFragment > 0
    decreases |samples| - start
  {
    if start >= |samples| then [] else
      var group := Group(samples, start, perFragment);
      [PieceOf(group, sequence, Ticks(start, duration), duration)]
      + Pieces(samples, start + perFragment, sequence + 1, perFragment, duration)
  }

  function EmitAll(pieces: seq<Piece>, muxer: Muxer, kind: Kind, id: nat, timescale: nat): seq<Fragment>
    requires timescale > 0
  {
    seq(|pieces|, i requires 0 <= i < |pieces| => pieces[i].Emit(muxer, kind, id, timescale))
  }

  /** The header describes these samples, each with its size, duration and whether it is a key. */
  predicate Describes(entries: seq<Entry>, group: seq<Sample>, duration: nat) {
    && |entries| == |group|
    && forall j | 0 <= j < |group| ::
         entries[j].size == |group[j].bytes| && entries[j].duration == duration
         && (if group[j].key then entries[j].dependsOn == 2 && entries[j].isNonSync == 0
             else entries[j].dependsOn == 1 && entries[j].isNonSync == 1)
  }

  /** The fragment of a group: its moof in front of its mdat, with these numbers, and its time in seconds. */
  ghost predicate Carries(f: Fragment, muxer: Muxer, group: seq<Sample>, kind: Kind, id: nat, sequence: nat,
      base: nat, duration: nat, timescale: nat)
  {
    && f.trackIndex == (match kind case Video => 0 case Audio => 1) && f.time * timescale as real == base as real
    && exists entries, payload ::
         Describes(entries, group, duration) && Joined(payload, group)
         && f.data == muxer.moof(sequence, base, Track(kind, id, entries)) + muxer.mdat(payload)
  }

  /** The payload is the bytes of the samples, one after the other. */
  ghost predicate Joined(payload: Blob, group: seq<Sample>) {
    if group == [] then payload == []
    else group[0].bytes <= payload && Joined(payload[|group[0].bytes|..], group[1..])
  }

  lemma {:induction false} PayloadJoined(group: seq<Sample>)
    ensures Joined(Flatten(Payloads(group)), group)
  {
    if group != [] {
      PayloadJoined(group[1..]);
      assert Payloads(group)[1..] == Payloads(group[1..]);
      assert Flatten(Payloads(group))[|group[0].bytes|..] == Flatten(Payloads(group[1..]));
    }
  }

  lemma CarriesPiece(muxer: Muxer, group: seq<Sample>, kind: Kind, id: nat, sequence: nat, base: nat, duration: nat,
      timescale: nat)
    requires timescale > 0
    ensures Carries(PieceOf(group, sequence, base, duration).Emit(muxer, kind, id, timescale), muxer, group, kind, id,
              sequence, base, duration, timescale)
  {
    PayloadJoined(group);
    hide Flatten;
    assert Describes(Entries(group, duration), group, duration);
  }

  method EmitGroup(muxer: Muxer, group: seq<Sample>, kind: Kind, id: nat, sequence: nat, base: nat, duration: nat,
      timescale: nat)
    returns (fragment: Fragment)
    requires timescale > 0
    ensures fragment == PieceOf(group, sequence, base, duration).Emit(muxer, kind, id, timescale)
    ensures Carries(fragment, muxer, group, kind, id, sequence, base, duration, timescale)
  {
    hide Flatten, Entries, Payloads;
    CarriesPiece(muxer, group, kind, id, sequence, base, duration, timescale);
    var moof := muxer.moof(sequence, base, Track(kind, id, Entries(group, duration)));
    var payload := Join(Payloads(group));
    var mdat := muxer.mdat(payload[..]);
    var data := Join([moof, mdat]);
    TwoParts(moof, mdat);
    fragment := Fragment(if kind == Video then 0 else 1, base as real / timescale as real, data[..]);
  }

  /** Fragment i takes the next `perFragment` samples, or what is left, is number 1 + i, and starts at the time of
      its first sample; together the fragments take all samples. */
  ghost predicate Cut(fragments: seq<Fragment>, muxer: Muxer, samples: seq<Sample>, kind: Kind, id: nat,
      perFragment: nat, duration: nat, timescale: nat)
  {
    && |samples| <= |fragments| * perFragment
    && (forall i: nat | i < |fragments| :: i * perFragment < |samples|)
    && forall i: nat | i < |fragments| ::
         var from, to := i * perFragment, (i + 1) * perFragment;
         Carries(fragments[i], muxer, samples[from..if to <= |samples| then to else |samples|], kind, id, 1 + i,
           from * duration, duration, timescale)
  }

  lemma {:induction false} PieceAt(samples: seq<Sample>, start: nat, sequence: nat, perFragment: nat, duration: nat,
      i: nat)
    requires perFragment > 0 && i < |Pieces(samples, start, sequence, perFragment, duration)|
    ensures start + i * perFragment < |samples|
    ensures Pieces(samples, start, sequence, perFragment, duration)[i]
         == PieceOf(Group(samples, start + i * perFragment, perFragment), sequence + i,
                    Ticks(start + i * perFragment, duration), duration)
    decreases i
  {
    hide PieceOf, Group, Ticks;
    assert start < |samples|;
    if i > 0 {
      PieceAt(samples, start + perFragment, sequence + 1, perFragment, duration, i - 1);
      assert start + perFragment + (i - 1) * perFragment == start + i * perFragment;
    }
  }

  lemma {:induction false} AllTaken(samples: seq<Sample>, start: nat, sequence: nat, perFragment: nat, duration: nat)
    requires perFragment > 0
    ensures |samples| <= start + |Pieces(samples, start, sequence, perFragment, duration)| * perFragment
    decreases |samples| - start
  {
    hide PieceOf, Group, Ticks;
    if start < |samples| {
      AllTaken(samples, start + perFragment, sequence + 1, perFragment, duration);
      var rest := |Pieces(samples, start + perFragment, sequence + 1, perFragment, duration)|;
      assert (rest + 1) * perFragment == rest * perFragment + perFragment;
    }
  }

  lemma PieceCarries(muxer: Muxer, samples: seq<Sample>, kind: Kind, id: nat, perFragment: nat, duration: nat,
      timescale: nat, i: nat)
    requires perFragment > 0 && timescale > 0 && i < |Pieces(samples, 0, 1, perFragment, duration)|
    ensures i * perFragment < |samples|
    ensures var from, to := i * perFragment, (i + 1) * perFragment;
            Carries(Pieces(samples, 0, 1, perFragment, duration)[i].Emit(muxer, kind, id, timescale), muxer,
              samples[from..if to <= |samples| then to else |samples|], kind, id, 1 + i, from * duration, duration,
              timescale)
  {
    hide Pieces, PieceOf, Carries, Piece.Emit, Group, Ticks;
    var from := i * perFragment;
    PieceAt(samples, 0, 1, perFragment, duration, i);
    NextGroup(samples, i, perFragment);
    TicksAre(from, duration);
    CarriesPiece(muxer, Group(samples, from, perFragment), kind, id, 1 + i, from * duration, duration, timescale);
  }

  lemma TicksAre(n: nat, duration: nat)
    ensures Ticks(n, duration) == n * duration
  {
  }

  lemma NextGroup(samples: seq<Sample>, i: nat, perFragment: nat)
    requires i * perFragment < |samples|
    ensures var from, to := i * perFragment, (i + 1) * perFragment;
            Group(samples, from, perFragment) == samples[from..if to <= |samples| then to else |samples|]
  {
    assert (i + 1) * perFragment == i * perFragment + perFragment;
  }

  lemma EmittedCut(muxer: Muxer, samples: seq<Sample>, kind: Kind, id: nat, perFragment: nat, duration: nat,
      timescale: nat)
    requires perFragment > 0 && timescale > 0
    ensures Cut(EmitAll(Pieces(samples, 0, 1, perFragment, duration), muxer, kind, id, timescale), muxer, samples,
              kind, id, perFragment, duration, timescale)
  {
    hide Pieces, PieceOf, Carries, Piece.Emit, EmitAll;
    AllTaken(samples, 0, 1, perFragment, duration);
    var pieces := Pieces(samples, 0, 1, perFragment, duration);
    forall i: nat | i < |pieces|
      ensures i * perFragment < |samples|
      ensures var from, to := i * perFragment, (i + 1) * perFragment;
              Carries(pieces[i].Emit(muxer, kind, id, timescale), muxer,
                samples[from..if to <= |samples| then to else |samples|], kind, id, 1 + i, from * duration, duration,
                timescale)
    {
      PieceCarries(muxer, samples, kind, id, perFragment, duration, timescale, i);
    }
    EmittedEach(pieces, muxer, kind, id, timescale);
  }

  lemma EmittedEach(pieces: seq<Piece>, muxer: Muxer, kind: Kind, id: nat, timescale: nat)
    requires timescale > 0
    ensures var all := EmitAll(pieces, muxer, kind, id, timescale);
            |all| == |pieces| && forall i: nat | i < |pieces| :: all[i] == pieces[i].Emit(muxer, kind, id, timescale)
  {
  }

  /** The loop of `fragments`. */
  method Fragments(muxer: Muxer, samples: seq<Sample>, kind: Kind, id: nat, perFragment: nat, duration: nat,
      timescale: nat)
    returns (result: seq<Fragment>)
    requires perFragment > 0 && timescale > 0
    ensures result == EmitAll(Pieces(samples, 0, 1, perFragment, duration), muxer, kind, id, timescale)
    ensures Cut(result, muxer, samples, kind, id, perFragment, duration, timescale)
  {
    hide Pieces, EmitAll, PieceOf, Group, Piece.Emit, Cut, Carries;
    EmittedCut(muxer, samples, kind, id, perFragment, duration, timescale);
    result := [];
    var start, sequence := 0, 1;
    ghost var whole := EmitAll(Pieces(samples, 0, 1, perFragment, duration), muxer, kind, id, timescale);
    assert [] + whole == whole;
    while start < |samples|
      invariant result + EmitAll(Pieces(samples, start, sequence, perFragment, duration), muxer, kind, id, timescale)
                  == whole
      decreases |samples| - start
    {
      EmitStep(muxer, samples, kind, id, start, sequence, perFragment, duration, timescale);
      var fragment := EmitGroup(muxer, Group(samples, start, perFragment), kind, id, sequence, Ticks(start, duration),
          duration, timescale);
      ghost var later := Pieces(samples, start + perFragment, sequence + 1, perFragment, duration);
      ghost var rest := EmitAll(later, muxer, kind, id, timescale);
      assert result + ([fragment] + rest) == result + [fragment] + rest;
      result := result + [fragment];
      start, sequence := start + perFragment, sequence + 1;
    }
    EmitEnd(muxer, samples, kind, id, start, sequence, perFragment, duration, timescale);
    assert result + [] == result;
  }

  lemma TwoParts(a: Blob, b: Blob)
    ensures Flatten([a, b]) == a + b
  {
    assert [a, b][1..] == [b] && [b][1..] == [];
    assert Flatten([b]) == b + [] == b;
  }

  lemma EmitStep(muxer: Muxer, samples: seq<Sample>, kind: Kind, id: nat, start: nat, sequence: nat, perFragment: nat,
      duration: nat, timescale: nat)
    requires timescale > 0 && perFragment > 0 && start < |samples|
    ensures EmitAll(Pieces(samples, start, sequence, perFragment, duration), muxer, kind, id, timescale)
         == [PieceOf(Group(samples, start, perFragment), sequence, Ticks(start, duration), duration)
             .Emit(muxer, kind, id, timescale)]
            + EmitAll(Pieces(samples, start + perFragment, sequence + 1, perFragment, duration),
                      muxer, kind, id, timescale)
  {
    hide PieceOf, Group, Piece.Emit, Ticks;
  }

  lemma EmitEnd(muxer: Muxer, samples: seq<Sample>, kind: Kind, id: nat, start: nat, sequence: nat, perFragment: nat,
      duration: nat, timescale: nat)
    requires timescale > 0 && perFragment > 0 && start >= |samples|
    ensures EmitAll(Pieces(samples, start, sequence, perFragment, duration), muxer, kind, id, timescale) == []
  {
  }

  // ------------------------------------------- what a player sees in pieces

  /** One sample as a player reads it. */
  datatype Shown = Shown(time: nat, duration: nat, bytes: Blob, key: bool)

  /** Reading a piece back: sizes cut the payload, durations advance the clock. */
  function Play(entries: seq<Entry>, base: nat, payload: Blob): seq<Shown> {
    if entries == [] then [] else
      var e := entries[0];
      [Shown(base, e.duration, Sub(payload, 0, e.size), e.isNonSync == 0)]
      + Play(entries[1..], base + e.duration, Sub(payload, e.size, |payload|))
  }

  function PlayAll(pieces: seq<Piece>): seq<Shown> {
    if pieces == [] then [] else Play(pieces[0].entries, pieces[0].base, pieces[0].payload) + PlayAll(pieces[1..])
  }

  /** The intended timeline: every sample in order, each starting where the one before it ends. */
  function Timeline(samples: seq<Sample>, from: nat, duration: nat): seq<Shown> {
    seq(|samples|,
        k requires 0 <= k < |samples| => Shown(Ticks(from + k, duration), duration, samples[k].bytes, samples[k].key))
  }

  lemma TimelineFirst(group: seq<Sample>, from: nat, duration: nat)
    requires group != []
    ensures Timeline(group, from, duration)
         == [Shown(Ticks(from, duration), duration, group[0].bytes, group[0].key)]
             + Timeline(group[1..], from + 1, duration)
  {
    hide Ticks;
    var whole, rest := Timeline(group, from, duration), Timeline(group[1..], from + 1, duration);
    forall k | 0 < k < |group|
      ensures whole[k] == rest[k - 1]
    {
      assert from + k == from + 1 + (k - 1);
    }
  }

  lemma PlayFirst(group: seq<Sample>, base: nat, duration: nat)
    requires group != []
    ensures Play(Entries(group, duration), base, Flatten(Payloads(group)))
         == [Shown(base, duration, group[0].bytes, group[0].key)]
            + Play(Entries(group[1..], duration), base + duration, Flatten(Payloads(group[1..])))
  {
    var rest := group[1..];
    assert Entries(group, duration)[1..] == Entries(rest, duration) && Payloads(group)[1..] == Payloads(rest);
    var all, tail := Flatten(Payloads(group)), Flatten(Payloads(rest));
    assert all == group[0].bytes + tail;
    assert Sub(all, 0, |group[0].bytes|) == group[0].bytes && Sub(all, |group[0].bytes|, |all|) == tail;
  }

  lemma PlayedNone(group: seq<Sample>, from: nat, duration: nat)
    requires group == []
    ensures forall base :: Play(Entries(group, duration), base, Flatten(Payloads(group))) == []
    ensures Timeline(group, from, duration) == []
  {
  }

  lemma {:induction false} PlayedGroup(group: seq<Sample>, from: nat, duration: nat)
    ensures Play(Entries(group, duration), Ticks(from, duration), Flatten(Payloads(group)))
              == Timeline(group, from, duration)
  {
    hide Play, Timeline, Entries, Payloads, Flatten, Ticks;
    if group == [] {
      PlayedNone(group, from, duration);
    } else {
      PlayFirst(group, Ticks(from, duration), duration);
      TimelineFirst(group, from, duration);
      TicksAdd(from, 1, duration);
      PlayedGroup(group[1..], from + 1, duration);
    }
  }

  /** The pieces hold every sample exactly once, in order and gap-free: played back, sample k starts at
      k times the duration, and carries its own bytes. */
  lemma {:induction false} PlayedBack(samples: seq<Sample>, start: nat, sequence: nat, perFragment: nat, duration: nat)
    requires perFragment > 0
    ensures PlayAll(Pieces(samples, start, sequence, perFragment, duration))
         == Timeline(if start <= |samples| then samples[start..] else [], start, duration)
    decreases |samples| - start
  {
    hide Play, Entries, Payloads, Flatten, Ticks, Timeline, Group;
    if start < |samples| {
      var group, next := Group(samples, start, perFragment), start + perFragment;
      var rest := if next <= |samples| then samples[next..] else [];
      PlayedGroup(group, start, duration);
      PlayedBack(samples, next, sequence + 1, perFragment, duration);
      GroupAndRest(samples, start, perFragment, duration);
    } else {
      PlayedNone(if start <= |samples| then samples[start..] else [], start, duration);
    }
  }

  lemma GroupAndRest(samples: seq<Sample>, start: nat, perFragment: nat, duration: nat)
    requires perFragment > 0 && start < |samples|
    ensures var group, next := Group(samples, start, perFragment), start + perFragment;
            var rest := if next <= |samples| then samples[next..] else [];
            Timeline(samples[start..], start, duration)
                == Timeline(group, start, duration) + Timeline(rest, next, duration)
  {
    hide Ticks;
    var group, next := Group(samples, start, perFragment), start + perFragment;
    var rest := if next <= |samples| then samples[next..] else [];
    assert samples[start..] == group + rest && (rest != [] ==> |group| == perFragment);
    TimelineAppend(group, rest, start, duration);
  }

  lemma TimelineAppend(a: seq<Sample>, b: seq<Sample>, from: nat, duration: nat)
    ensures Timeline(a + b, from, duration) == Timeline(a, from, duration) + Timeline(b, from + |a|, duration)
  {
    hide Ticks;
    var whole, tail := Timeline(a + b, from, duration), Timeline(b, from + |a|, duration);
    forall k | |a| <= k < |a| + |b|
      ensures whole[k] == tail[k - |a|]
    {
      assert from + k == from + |a| + (k - |a|);
    }
  }

  /** The first piece and what follows it. */
  lemma PieceFirst(samples: seq<Sample>, start: nat, sequence: nat, perFragment: nat, duration: nat)
    requires perFragment > 0 && start < |samples|
    ensures var pieces, next := Pieces(samples, start, sequence, perFragment, duration),
              Pieces(samples, start + perFragment, sequence + 1, perFragment, duration);
            && pieces != [] && pieces[1..] == next
            && pieces[0].sequence == sequence && pieces[0].base == Ticks(start, duration)
                && 1 <= |pieces[0].entries| <= perFragment
            && (next != []
                ==> |pieces[0].entries| == perFragment && next[0].base == Ticks(start + perFragment, duration))
  {
    hide Ticks;
  }

  /** Headers of consecutive pieces: numbered one by one, none empty, only the last one smaller than the
      rest, and each base time where the durations of the piece before it end. */
  predicate GapFree(pieces: seq<Piece>, sequence: nat, base: nat, perFragment: nat, duration: nat) {
    pieces == [] ||
    (&& pieces[0].sequence == sequence && pieces[0].base == base
     && 1 <= |pieces[0].entries| <= perFragment && (|pieces| > 1 ==> |pieces[0].entries| == perFragment)
     && GapFree(pieces[1..], sequence + 1, base + Ticks(|pieces[0].entries|, duration), perFragment, duration))
  }

  lemma {:induction false} PiecesGapFree(samples: seq<Sample>, start: nat, sequence: nat, perFragment: nat,
      duration: nat)
    requires perFragment > 0
    ensures GapFree(Pieces(samples, start, sequence, perFragment, duration), sequence, Ticks(start, duration),
              perFragment, duration)
    decreases |samples| - start
  {
    hide Ticks;
    if start < |samples| {
      PieceFirst(samples, start, sequence, perFragment, duration);
      PiecesGapFree(samples, start + perFragment, sequence + 1, perFragment, duration);
      TicksAdd(start, perFragment, duration);
      hide Pieces;
    }
  }

  lemma {:induction false} BasesClimb(samples: seq<Sample>, start: nat, sequence: nat, perFragment: nat, duration: nat,
      i: nat)
    requires perFragment > 0 && duration > 0 && i < |Pieces(samples, start, sequence, perFragment, duration)|
    ensures Ticks(start, duration) <= Pieces(samples, start, sequence, perFragment, duration)[i].base
    ensures i > 0 ==> Ticks(start, duration) < Pieces(samples, start, sequence, perFragment, duration)[i].base
    decreases i
  {
    hide Ticks;
    if i > 0 {
      BasesClimb(samples, start + perFragment, sequence + 1, perFragment, duration, i - 1);
      TicksAdd(start, perFragment, duration);
    }
  }

  // ---------------------------------------------------------- interleaving

  /** The comparator of the cross-track sort. */
  predicate Before(a: Fragment, b: Fragment) {
    a.time < b.time || (a.time == b.time && a.trackIndex <= b.trackIndex)
  }

  predicate Sorted(media: seq<Fragment>) {
    forall i, j | 0 <= i < j < |media| :: Before(media[i], media[j])
  }

  /** One track's fragments: on its own index, at strictly increasing times. */
  predicate Climbing(fragments: seq<Fragment>, track: nat) {
    && (forall i | 0 <= i < |fragments| :: fragments[i].trackIndex == track)
    && (forall i, j | 0 <= i < j < |fragments| :: fragments[i].time < fragments[j].time)
  }

  function OnTrack(media: seq<Fragment>, track: nat): seq<Fragment> {
    if media == [] then [] else (if media[0].trackIndex == track then [media[0]] else []) + OnTrack(media[1..], track)
  }

  lemma {:induction false} OnTrackCounts(media: seq<Fragment>, track: nat, x: Fragment)
    ensures multiset(OnTrack(media, track))[x] == if x.trackIndex == track then multiset(media)[x] else 0
  {
    if media != [] {
      assert media == [media[0]] + media[1..];
      OnTrackCounts(media[1..], track, x);
    }
  }

  lemma {:induction false} OnTrackOrdered(media: seq<Fragment>, track: nat)
    requires Sorted(media)
    ensures Ascending(OnTrack(media, track))
    ensures forall x | x in OnTrack(media, track) :: x in media
  {
    if media != [] {
      OnTrackOrdered(media[1..], track);
      var rest := OnTrack(media[1..], track);
      assert forall i | 0 < i < |media| :: media[i] in media[1..] && Before(media[0], media[i]);
      assert forall x | x in media[1..] :: x in media && Before(media[0], x);
      assert forall j | 0 <= j < |rest| :: rest[j] in rest && media[0].time <= rest[j].time;
    }
  }

  predicate Ascending(fragments: seq<Fragment>) {
    forall i, j | 0 <= i < j < |fragments| :: fragments[i].time <= fragments[j].time
  }

  /** A list in ascending order that has the members of a strictly ascending one is that list. */
  lemma {:induction false} SameOrder(a: seq<Fragment>, b: seq<Fragment>, track: nat)
    requires Ascending(a) && Climbing(b, track) && multiset(a) == multiset(b)
    ensures a == b
  {
    if a == [] {
      NoMembers(b);
    } else {
      hide Ascending, Climbing;
      NoMembers(a);
      NoMembers(b);
      SameHead(a, b, track);
      Tails(a, b, track);
      SameOrder(a[1..], b[1..], track);
    }
  }

  lemma NoMembers(a: seq<Fragment>)
    ensures a == [] <==> multiset(a) == multiset{}
  {
    assert |a| == |multiset(a)|;
  }

  lemma SameHead(a: seq<Fragment>, b: seq<Fragment>, track: nat)
    requires Ascending(a) && Climbing(b, track) && multiset(a) == multiset(b) && a != [] && b != []
    ensures a[0] == b[0]
  {
    assert b[0] in multiset(a) && a[0] in multiset(b);
  }

  lemma Tails(a: seq<Fragment>, b: seq<Fragment>, track: nat)
    requires Ascending(a) && Climbing(b, track) && multiset(a) == multiset(b) && a != [] && b != [] && a[0] == b[0]
    ensures Ascending(a[1..]) && Climbing(b[1..], track) && multiset(a[1..]) == multiset(b[1..])
    ensures a == [a[0]] + a[1..] && b == [b[0]] + b[1..]
  {
    assert Ascending(a[1..]) && Climbing(b[1..], track);
    hide Ascending, Climbing;
    Tail(a);
    Tail(b);
  }

  lemma Tail(a: seq<Fragment>)
    requires a != []
    ensures a == [a[0]] + a[1..] && multiset(a[1..]) == multiset(a) - multiset{a[0]}
  {
    assert a == [a[0]] + a[1..];
  }

  /** Sorting the fragments of two tracks by time never reorders a track: each track is found in the
      interleaved list exactly as it was made. */
  lemma TracksKeptInOrder(media: seq<Fragment>, video: seq<Fragment>, audio: seq<Fragment>)
    requires Climbing(video, 0) && Climbing(audio, 1)
    requires multiset(media) == multiset(video + audio) && Sorted(media)
    ensures OnTrack(media, 0) == video && OnTrack(media, 1) == audio
  {
    TrackKept(media, video, audio, 0);
    assert multiset(media) == multiset(audio + video);
    TrackKept(media, audio, video, 1);
  }

  lemma TrackKept(media: seq<Fragment>, track: seq<Fragment>, other: seq<Fragment>, t: nat)
    requires Climbing(track, t) && forall x | x in other :: x.trackIndex != t
    requires multiset(media) == multiset(track + other) && Sorted(media)
    ensures OnTrack(media, t) == track
  {
    hide Sorted, OnTrack;
    forall x: Fragment
      ensures multiset(OnTrack(media, t))[x] == multiset(track)[x]
    {
      OnTrackCounts(media, t, x);
      assert x.trackIndex == t ==> x !in other;
      assert x.trackIndex != t ==> x !in track;
    }
    OnTrackOrdered(media, t);
    SameOrder(OnTrack(media, t), track, t);
  }

  // ---------------------------------------------------------------- messages

  const CHUNK: nat := 128 * 1024

  datatype Message = Append(trackIndex: nat, data: Blob)

  /** The messages that carry a fragment from `offset` on. */
  function Chunks(fragment: Fragment, offset: nat): seq<Message>
    decreases |fragment.data| - offset
  {
    if offset >= |fragment.data| then []
    else [Append(fragment.trackIndex, Sub(fragment.data, offset, offset + CHUNK))] + Chunks(fragment, offset + CHUNK)
  }

  function Split(media: seq<Fragment>): seq<Message> {
    if media == [] then [] else Chunks(media[0], 0) + Split(media[1..])
  }

  /** The sending loop. */
  method Send(media: seq<Fragment>) returns (messages: seq<Message>)
    ensures messages == Split(media)
  {
    messages := [];
    for i := 0 to |media|
      invariant messages + Split(media[i..]) == Split(media)
    {
      var fragment, offset := media[i], 0;
      ghost var before, rest := messages, Split(media[i + 1..]);
      assert media[i..][1..] == media[i + 1..];
      while offset < |fragment.data|
        invariant messages + Chunks(fragment, offset) == before + Chunks(fragment, 0)
        decreases |fragment.data| - offset
      {
        var message := Append(fragment.trackIndex, Sub(fragment.data, offset, offset + CHUNK));
        ghost var more := Chunks(fragment, offset + CHUNK);
        assert messages + ([message] + more) == messages + [message] + more;
        messages := messages + [message];
        offset := offset + CHUNK;
      }
      assert before + (Chunks(fragment, 0) + rest) == before + Chunks(fragment, 0) + rest;
    }
  }

  /** What the other side has of a track once the messages arrived. */
  function Received(messages: seq<Message>, track: nat): Blob {
    if messages == [] then []
    else (if messages[0].trackIndex == track then messages[0].data else []) + Received(messages[1..], track)
  }

  lemma {:induction false} ReceivedAppend(a: seq<Message>, b: seq<Message>, track: nat)
    ensures Received(a + b, track) == Received(a, track) + Received(b, track)
  {
    if a == [] {
      assert a + b == b;
    } else {
      assert (a + b)[1..] == a[1..] + b;
      ReceivedAppend(a[1..], b, track);
    }
  }

  /** One fragment's messages: none empty, all but the last full, together exactly its bytes. */
  lemma {:induction false} ChunksCarry(fragment: Fragment, offset: nat, track: nat)
    ensures Received(Chunks(fragment, offset), track)
         == if fragment.trackIndex == track then Sub(fragment.data, offset, |fragment.data|) else []
    ensures var c := Chunks(fragment, offset);
            forall i | 0 <= i < |c| :: 1 <= |c[i].data| <= 131072 && (i < |c| - 1 ==> |c[i].data| == 131072)
    decreases |fragment.data| - offset
  {
    if offset < |fragment.data| {
      var next := offset + CHUNK;
      ChunksCarry(fragment, next, track);
      assert Sub(fragment.data, offset, |fragment.data|)
             == Sub(fragment.data, offset, next) + Sub(fragment.data, next, |fragment.data|);
    }
  }

  function Contents(fragments: seq<Fragment>): seq<Blob> {
    seq(|fragments|, i requires 0 <= i < |fragments| => fragments[i].data)
  }

  lemma {:induction false} SplitCarries(media: seq<Fragment>, track: nat)
    ensures Received(Split(media), track) == Flatten(Contents(OnTrack(media, track)))
    ensures forall m | m in Split(media) :: 1 <= |m.data| <= 131072
  {
    if media != [] {
      var rest := OnTrack(media[1..], track);
      SplitCarries(media[1..], track);
      ChunksCarry(media[0], 0, track);
      ReceivedAppend(Chunks(media[0], 0), Split(media[1..]), track);
      ContentsFirst(media[0], rest);
      assert Sub(media[0].data, 0, |media[0].data|) == media[0].data;
      assert OnTrack(media, track) == if media[0].trackIndex == track then [media[0]] + rest else rest;
      hide Received, Flatten, Contents, OnTrack, Chunks, Sub;
    }
  }

  /** Messages go out in the order of the fragments, whatever their tracks. */
  lemma {:induction false} SplitInOrder(a: seq<Fragment>, b: seq<Fragment>)
    ensures Split(a + b) == Split(a) + Split(b)
  {
    if a == [] {
      assert a + b == b;
    } else {
      assert (a + b)[1..] == a[1..] + b;
      SplitInOrder(a[1..], b);
      var first, x, y := Chunks(a[0], 0), Split(a[1..]), Split(b);
      assert first + (x + y) == first + x + y;
    }
  }

  lemma ContentsFirst(fragment: Fragment, rest: seq<Fragment>)
    ensures Flatten(Contents([fragment] + rest)) == fragment.data + Flatten(Contents(rest))
  {
    assert Contents([fragment] + rest)[1..] == Contents(rest);
  }

  // ----------------------------------------------------------------- the run

  const VIDEO_PER_FRAGMENT: nat := 60
  const AUDIO_PER_FRAGMENT: nat := 94

  /** The two tracks of the probe. */
  function VideoFragments(muxer: Muxer, samples: seq<Sample>): seq<Fragment> {
    EmitAll(Pieces(samples, 0, 1, VIDEO_PER_FRAGMENT, 3000), muxer, Video, 1, 90000)
  }

  function AudioFragments(muxer: Muxer, samples: seq<Sample>): seq<Fragment> {
    EmitAll(Pieces(samples, 0, 1, AUDIO_PER_FRAGMENT, 1024), muxer, Audio, 2, 48000)
  }

  lemma EmittedClimb(muxer: Muxer, samples: seq<Sample>, kind: Kind, id: nat, perFragment: nat, duration: nat,
      timescale: nat)
    requires perFragment > 0 && duration > 0 && timescale > 0
    ensures Climbing(EmitAll(Pieces(samples, 0, 1, perFragment, duration), muxer, kind, id, timescale),
              if kind == Video then 0 else 1)
  {
    var pieces := Pieces(samples, 0, 1, perFragment, duration);
    forall i, j | 0 <= i < j < |pieces|
      ensures pieces[i].base as real / timescale as real < pieces[j].base as real / timescale as real
    {
      LaterBase(samples, 0, 1, perFragment, duration, i, j);
      QuotientsClimb(pieces[i].base as real, pieces[j].base as real, timescale as real);
    }
  }

  lemma QuotientsClimb(a: real, b: real, t: real)
    requires a < b && t > 0.0
    ensures a / t < b / t
  {
    assert b / t - a / t == (b - a) / t;
  }

  lemma {:induction false} LaterBase(samples: seq<Sample>, start: nat, sequence: nat, perFragment: nat, duration: nat,
      i: nat, j: nat)
    requires perFragment > 0 && duration > 0 && i < j < |Pieces(samples, start, sequence, perFragment, duration)|
    ensures var pieces := Pieces(samples, start, sequence, perFragment, duration); pieces[i].base < pieces[j].base
    decreases i
  {
    hide Ticks, Group;
    if i == 0 {
      BasesClimb(samples, start, sequence, perFragment, duration, j);
    } else {
      LaterBase(samples, start + perFragment, sequence + 1, perFragment, duration, i - 1, j - 1);
    }
  }

  /** Whatever way the fragments were sorted, and however they were split: the receiver's bytes of each
      track are that track's fragments in order, in messages of 1 byte to 128 KiB. Video is cut into 60 frames of
      3000 ticks at 90 kHz, audio into 94 frames of 1024 ticks at 48 kHz. */
  lemma Delivered(muxer: Muxer, video: seq<Sample>, audio: seq<Sample>, media: seq<Fragment>)
    requires Sorted(media) && multiset(media) == multiset(VideoFragments(muxer, video) + AudioFragments(muxer, audio))
    ensures Received(Split(media), 0) == Flatten(Contents(VideoFragments(muxer, video)))
    ensures Received(Split(media), 1) == Flatten(Contents(AudioFragments(muxer, audio)))
    ensures Cut(VideoFragments(muxer, video), muxer, video, Video, 1, 60, 3000, 90000)
    ensures Cut(AudioFragments(muxer, audio), muxer, audio, Audio, 2, 94, 1024, 48000)
    ensures forall m | m in Split(media) :: 1 <= |m.data| <= 131072
  {
    hide Split, Received, Contents, OnTrack, Sorted, Cut, Pieces, EmitAll;
    EmittedCut(muxer, video, Video, 1, 60, 3000, 90000);
    EmittedCut(muxer, audio, Audio, 2, 94, 1024, 48000);
    EmittedClimb(muxer, video, Video, 1, VIDEO_PER_FRAGMENT, 3000, 90000);
    EmittedClimb(muxer, audio, Audio, 2, AUDIO_PER_FRAGMENT, 1024, 48000);
    TracksKeptInOrder(media, VideoFragments(muxer, video), AudioFragments(muxer, audio));
    SplitCarries(media, 0);
    SplitCarries(media, 1);
  }
}
