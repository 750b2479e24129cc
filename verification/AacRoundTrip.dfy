/** Whole files: any recording, written as a fragmented MP4, is accepted by `extractAac`, which gives back
    exactly its access units, its configuration and the exact time of each unit. */
module AacRoundTrip {
  import opened Common
  import opened Bytes
  import opened Mp4Boxes
  import opened AacTrack
  import opened AacFragments
  import opened AacPrinted
  import opened AacMovie
  import opened AacTables

  // ---------------------------------------------------------------- recordings

  /** One AAC access unit. */
  datatype Unit = Unit(bytes: seq<Byte>, duration: nat) {
    predicate Fits() {
      0 < |bytes| <= 65536 && 0 < duration && Word(duration)
    }
  }

  function UnitTime(units: seq<Unit>): nat {
    if units == [] then 0 else UnitTime(units[..|units| - 1]) + units[|units| - 1].duration
  }

  function DataOf(units: seq<Unit>): seq<Byte> {
    if units == [] then [] else DataOf(units[..|units| - 1]) + units[|units| - 1].bytes
  }

  function EntriesOf(units: seq<Unit>): seq<Entry> {
    seq(|units|, i requires 0 <= i < |units| => Entry(units[i].duration, |units[i].bytes|))
  }

  predicate UnitsFit(units: seq<Unit>) {
    forall i | 0 <= i < |units| :: units[i].Fits()
  }

  /** One run, with any columns; it says where it starts or follows the run before it. */
  datatype RunPlan = RunPlan(version: nat, flags: nat, first: nat, sampleFlags: nat, units: seq<Unit>) {
    predicate Fits() {
      && version < 0x100 && flags < 0x100_0000 && Word(first) && Word(sampleFlags)
      && 0 < |units| <= 2048 && UnitsFit(units)
    }

    /** What has no column of its own is what the header says. */
    predicate Accepted(duration: nat, size: nat) {
      && version <= 1 && !Has(flags, 0xFFF0FA)
      && (!Has(flags, 0x100) ==> forall i | 0 <= i < |units| :: units[i].duration == duration)
      && (!Has(flags, 0x200) ==> forall i | 0 <= i < |units| :: |units[i].bytes| == size)
    }

    function Fields(offset: int): (r: RunFields)
      requires Fits()
      ensures r.Fits()
    {
      var rows := seq(|units|, i requires 0 <= i < |units| => Row(units[i].duration, |units[i].bytes|, sampleFlags, 0));
      assert RowsFit(rows) by { assert forall i | 0 <= i < |units| :: units[i].Fits(); }
      RunFields(version, flags, offset, first, rows, [])
    }
  }

  /** One moof with its header, clock and runs, and the mdat behind it, in any header form. */
  datatype Group = Group(header: HeaderFields, clock: nat, form: Form, runs: seq<RunPlan>) {
    function Lists(): (lists: seq<seq<Unit>>)
      ensures |lists| == |runs|
    {
      seq(|runs|, k requires 0 <= k < |runs| => runs[k].units)
    }

    function Units(): seq<Unit> {
      Flatten(Lists())
    }

    function UnitsBefore(k: nat): seq<Unit>
      requires k <= |runs|
    {
      Flatten(Lists()[..k])
    }

    predicate Fits() {
      && header.Fits() && clock < 0x100 && 0 < |runs| && 2 + |runs| <= MAX_BOXES
      && forall k | 0 <= k < |runs| :: runs[k].Fits()
    }

    /** The first run says where it starts; an explicit base is within reach of 32-bit offsets. */
    predicate Accepted(track: Track) {
      && header.Accepted(track) && (Has(header.flags, 1) ==> header.base <= 0x8000_0000) && clock <= 1
      && runs != [] && Has(runs[0].flags, 1)
      && var says := header.Header(0, track);
      forall k | 0 <= k < |runs| :: runs[k].Accepted(says.duration, says.size)
    }

    function DataHeader(): nat {
      if form == Large then 16 else 8
    }

    /** Run k, for a payload that starts at `data` and offsets that count from `base`. */
    function RunAt(k: nat, base: int, data: int): RunFields
      requires Fits() && k < |runs|
    {
      runs[k].Fields(data + |DataOf(UnitsBefore(k))| - base)
    }
  }

  datatype Recording = Recording(config: Config, first: nat, groups: seq<Group>) {
    function Lists(): (lists: seq<seq<Unit>>)
      ensures |lists| == |groups|
    {
      seq(|groups|, n requires 0 <= n < |groups| => groups[n].Units())
    }

    function Units(): seq<Unit> {
      Flatten(Lists())
    }

    /** The decode time of group n. */
    function TimeOf(n: nat): nat
      requires n <= |groups|
    {
      first + UnitTime(Flatten(Lists()[..n]))
    }

    function ClockOf(n: nat): ClockFields
      requires n < |groups|
    {
      ClockFields(groups[n].clock, 0, TimeOf(n), [])
    }

    /** Everything fits its field; only the last mdat may leave its size open. */
    ghost predicate Fits() {
      && config.Fits() && 0 < |groups| && 2 + 2 * |groups| <= MAX_BOXES
      && forall n | 0 <= n < |groups| ::
           groups[n].Fits() && ClockOf(n).Fits() && (groups[n].form == OpenEnded ==> n == |groups| - 1)
    }

    ghost predicate Accepted(rate: nat) {
      && Fits() && config.Accepted(rate) && |Units()| <= 2048 && TimeOf(|groups|) <= 9007199254740991
      && (forall n | 0 <= n < |groups| :: groups[n].Accepted(config.Track()))
      && (forall u | u in Units() :: u.duration * rate <= 2048 * config.timescale)
    }
  }

  // ------------------------------------------------------------------- writing

  function TrafItems(g: Group, clock: ClockFields, base: int, data: int): (items: seq<Item>)
    requires g.Fits() && clock.Fits()
    ensures |items| == 2 + |g.runs| && Writable(items)
  {
    [Named("tfhd", g.header.Print()), Named("tfdt", clock.Print())]
    + seq(|g.runs|, k requires 0 <= k < |g.runs| => Named("trun", g.RunAt(k, base, data).Print()))
  }

  function MoofItems(g: Group, clock: ClockFields, base: int, data: int): (items: seq<Item>)
    requires g.Fits() && clock.Fits()
    ensures |items| == 2 && Writable(items)
  {
    [Named("mfhd", Zeros(8)), Named("traf", Pack(TrafItems(g, clock, base, data)))]
  }

  /** The size of a moof, whatever its offsets are. */
  function MoofSize(g: Group, clock: ClockFields): nat
    requires g.Fits() && clock.Fits()
  {
    8 + |Pack(MoofItems(g, clock, 0, 0))|
  }

  lemma MovieWritable(c: Config)
    requires c.Fits()
    ensures Writable(MovieItems(c))
  {
    TrackOnly(c);
  }

  function MoviePayload(c: Config): seq<Byte>
    requires c.Fits()
  {
    MovieWritable(c);
    Pack(MovieItems(c))
  }

  /** Where group n starts in the file: behind ftyp, moov and the groups before it. */
  function MoofStart(rec: Recording, n: nat): nat
    requires rec.Fits() && n <= |rec.groups|
    decreases n, 0
  {
    if n == 0 then 24 + |MoviePayload(rec.config)| else DataStart(rec, n - 1) + |DataOf(rec.groups[n - 1].Units())|
  }

  function DataStart(rec: Recording, n: nat): nat
    requires rec.Fits() && n < |rec.groups|
    decreases n, 1
  {
    MoofStart(rec, n) + MoofSize(rec.groups[n], rec.ClockOf(n)) + rec.groups[n].DataHeader()
  }

  /** What offsets count from: the header's own base, or the start of the moof. */
  function BaseOf(rec: Recording, n: nat): int
    requires rec.Fits() && n < |rec.groups|
  {
    if Has(rec.groups[n].header.flags, 1) then rec.groups[n].header.base else MoofStart(rec, n)
  }

  function MoofPayload(rec: Recording, n: nat): seq<Byte>
    requires rec.Fits() && n < |rec.groups|
  {
    Pack(MoofItems(rec.groups[n], rec.ClockOf(n), BaseOf(rec, n), DataStart(rec, n)))
  }

  function ItemAt(rec: Recording, i: nat): (item: Item)
    requires rec.Fits() && i < 2 + 2 * |rec.groups|
    ensures |item.kind| == 4 && (item.form == OpenEnded ==> item.kind == MDAT && i == 1 + 2 * |rec.groups|)
  {
    if i == 0 then Named("ftyp", Zeros(8))
    else if i == 1 then Named("moov", MoviePayload(rec.config))
    else if i % 2 == 0 then Named("moof", MoofPayload(rec, i / 2 - 1))
    else Item(rec.groups[i / 2 - 1].form, MDAT, DataOf(rec.groups[i / 2 - 1].Units()))
  }

  function Items(rec: Recording): (items: seq<Item>)
    requires rec.Fits()
    ensures |items| == 2 + 2 * |rec.groups| && Writable(items)
  {
    seq(2 + 2 * |rec.groups|, i requires 0 <= i < 2 + 2 * |rec.groups| => ItemAt(rec, i))
  }

  function File(rec: Recording): seq<Byte>
    requires rec.Fits()
  {
    Pack(Items(rec))
  }

  /** What should come out: each unit with the exact time of all units before it. */
  function Heard(units: seq<Unit>, timescale: nat): seq<AacSample>
    requires timescale > 0
  {
    seq(|units|, k requires 0 <= k < |units| =>
        AacSample(units[k].bytes, Micros(UnitTime(units[..k]), timescale), true))
  }

  // ------------------------------------------------------------- the top level

  lemma KindsDiffer()
    ensures |FourCC("ftyp")| == |FourCC("moov")| == |FourCC("moof")| == |MDAT| == 4
    ensures FourCC("ftyp") != FourCC("moov") && FourCC("ftyp") != FourCC("moof") && FourCC("ftyp") != MDAT
    ensures FourCC("moov") != FourCC("moof") && FourCC("moov") != MDAT && FourCC("moof") != MDAT
  {
    NameLengths("ftyp", "moov", "moof");
    NameLengths("mdat", "mdat", "mdat");
    hide FourCC;
    Differ("ftyp", "moov", 0);
    Differ("ftyp", "moof", 0);
    Differ("ftyp", "mdat", 0);
    Differ("moov", "moof", 3);
    Differ("moov", "mdat", 1);
    Differ("moof", "mdat", 1);
  }

  /** The kind of top-level box i. */
  function KindOf(i: nat): Kind {
    if i == 0 then FourCC("ftyp") else if i == 1 then FourCC("moov") else if i % 2 == 0 then FourCC("moof") else MDAT
  }

  lemma KindAt(rec: Recording, i: nat)
    requires rec.Fits() && i < 2 + 2 * |rec.groups|
    ensures Items(rec)[i] == ItemAt(rec, i) && ItemAt(rec, i).kind == KindOf(i)
  {
    hide Recording.Fits, MoofPayload, MoviePayload, DataOf, FourCC;
  }

  lemma TopOnly(rec: Recording)
    requires rec.Fits()
    ensures Only(Items(rec), 0) && Only(Items(rec), 1)
  {
    KindsDiffer();
    hide FourCC, ItemAt, Recording.Fits;
    forall i: nat | i < 2 + 2 * |rec.groups|
      ensures i != 0 ==> Items(rec)[i].kind != Items(rec)[0].kind
      ensures i != 1 ==> Items(rec)[i].kind != Items(rec)[1].kind
    {
      KindAt(rec, 0);
      KindAt(rec, 1);
      KindAt(rec, i);
    }
  }

  lemma {:induction false} PlaceAt(items: seq<Item>, at: nat, k: nat)
    requires k < |items|
    ensures var box := Places(items, at)[k];
            && box.kind == items[k].kind && box.data == box.start + items[k].HeaderSize()
            && box.end == box.data + |items[k].payload| && (k == 0 ==> box.start == at)
    ensures k + 1 < |items| ==> Places(items, at)[k + 1].start == Places(items, at)[k].end
    decreases k
  {
    if k > 0 {
      PlaceAt(items[1..], at + items[0].Size(), k - 1);
    }
  }

  lemma {:induction false} SelectAppend(a: seq<Box>, b: seq<Box>, kind: Kind)
    ensures Select(a + b, kind) == Select(a, kind) + Select(b, kind)
  {
    if a == [] {
      assert a + b == b;
    } else {
      assert (a + b)[1..] == a[1..] + b;
      SelectAppend(a[1..], b, kind);
    }
  }

  lemma SelectPair(x: Box, y: Box, kind: Kind)
    ensures Select([x, y], kind) == (if x.kind == kind then [x] else []) + (if y.kind == kind then [y] else [])
  {
    assert [x, y][1..] == [y] && [y][1..] == [];
    assert Select([y], kind) == (if y.kind == kind then [y] else []) + Select([], kind);
  }

  /** Boxes 2, 4, 6 and so on, or 3, 5, 7 and so on. */
  function EveryOther(boxes: seq<Box>, shift: nat, n: nat): (r: seq<Box>)
    requires shift < 2 && 2 + 2 * n <= |boxes|
    ensures |r| == n
  {
    seq(n, i requires 0 <= i < n => boxes[2 + 2 * i + shift])
  }

  predicate Alternates(boxes: seq<Box>, kind: Kind, shift: nat) {
    && shift < 2 && |boxes| >= 2 && boxes[0].kind != kind && boxes[1].kind != kind
    && forall i | 2 <= i < |boxes| :: boxes[i].kind == kind <==> i % 2 == shift
  }

  lemma EveryOtherStep(boxes: seq<Box>, shift: nat, n: nat)
    requires shift < 2 && 2 + 2 * n <= |boxes|
    ensures n == 0 ==> EveryOther(boxes, shift, n) == []
    ensures n > 0 ==> EveryOther(boxes, shift, n) == EveryOther(boxes, shift, n - 1) + [boxes[2 * n + shift]]
  {
  }

  /** The two boxes of a fragment: one of them is of the kind. */
  lemma PairSelected(boxes: seq<Box>, kind: Kind, shift: nat, n: nat)
    requires Alternates(boxes, kind, shift) && 2 + 2 * n <= |boxes|
    ensures Select([boxes[2 * n], boxes[2 * n + 1]], kind) == if n == 0 then [] else [boxes[2 * n + shift]]
  {
    hide Select;
    SelectPair(boxes[2 * n], boxes[2 * n + 1], kind);
    if n > 0 {
      assert boxes[2 * n].kind == kind <==> (2 * n) % 2 == shift;
      assert boxes[2 * n + 1].kind == kind <==> (2 * n + 1) % 2 == shift;
    }
  }

  lemma PairAppended(boxes: seq<Box>, n: nat)
    requires 2 + 2 * n <= |boxes|
    ensures boxes[..2 + 2 * n] == boxes[..2 * n] + [boxes[2 * n], boxes[2 * n + 1]]
  {
  }

  /** The selection from the first two boxes and the first n fragments. */
  predicate SelectedUpTo(boxes: seq<Box>, kind: Kind, shift: nat, n: nat)
    requires shift < 2 && 2 + 2 * n <= |boxes|
  {
    Select(boxes[..2 + 2 * n], kind) == EveryOther(boxes, shift, n)
  }

  lemma SelectedNext(boxes: seq<Box>, kind: Kind, shift: nat, n: nat)
    requires Alternates(boxes, kind, shift) && 2 + 2 * n <= |boxes|
    requires n > 0 ==> SelectedUpTo(boxes, kind, shift, n - 1)
    ensures SelectedUpTo(boxes, kind, shift, n)
  {
    var front, pair := boxes[..2 * n], [boxes[2 * n], boxes[2 * n + 1]];
    assert shift < 2 && (n > 0 ==> Select(front, kind) == EveryOther(boxes, shift, n - 1));
    assert n == 0 ==> Select(front, kind) == [];
    hide Select, EveryOther, Alternates;
    PairSelected(boxes, kind, shift, n);
    EveryOtherStep(boxes, shift, n);
    PairAppended(boxes, n);
    SelectAppend(front, pair, kind);
  }

  lemma {:induction false} SelectAlternating(boxes: seq<Box>, kind: Kind, shift: nat, n: nat)
    requires Alternates(boxes, kind, shift) && 2 + 2 * n <= |boxes|
    ensures SelectedUpTo(boxes, kind, shift, n)
    decreases n
  {
    assert shift < 2;
    hide SelectedUpTo, Alternates;
    if n > 0 {
      SelectAlternating(boxes, kind, shift, n - 1);
    }
    SelectedNext(boxes, kind, shift, n);
  }

  /** The bytes are the written file, and `top` are its boxes. */
  ghost predicate Laid(rec: Recording, bytes: seq<Byte>, top: seq<Box>) {
    && rec.Fits() && bytes == File(rec) && |bytes| <= MAX_BYTES
    && top == Places(Items(rec), 0) && |top| == 2 + 2 * |rec.groups|
  }

  /** The moof and mdat boxes of the written file. */
  lemma FragmentBoxesSelected(rec: Recording, bytes: seq<Byte>, top: seq<Box>)
    requires Laid(rec, bytes, top) && |top| == 2 + 2 * |rec.groups|
    ensures Select(top, FourCC("moof")) == EveryOther(top, 0, |rec.groups|)
    ensures Select(top, MDAT) == EveryOther(top, 1, |rec.groups|)
  {
    hide FourCC, Select, Laid, EveryOther, Alternates;
    TopAlternates(rec, bytes, top);
    SelectAlternating(top, FourCC("moof"), 0, |rec.groups|);
    SelectAlternating(top, MDAT, 1, |rec.groups|);
    assert top[..2 + 2 * |rec.groups|] == top;
  }

  lemma TopAlternates(rec: Recording, bytes: seq<Byte>, top: seq<Box>)
    requires Laid(rec, bytes, top)
    ensures |top| == 2 + 2 * |rec.groups| && Alternates(top, FourCC("moof"), 0) && Alternates(top, MDAT, 1)
  {
    hide FourCC, Recording.Fits, ItemAt, Places, Items, File;
    KindsDiffer();
    forall i: nat | i < 2 + 2 * |rec.groups|
      ensures top[i].kind == KindOf(i)
    {
      KindAt(rec, i);
      PlaceAt(Items(rec), 0, i);
    }
  }

  lemma HoldsAll(bytes: seq<Byte>)
    ensures HoldsAt(bytes, 0, bytes)
  {
    assert bytes[0..|bytes|] == bytes;
  }

  /** The written file splits into its boxes, each with its payload. */
  lemma TopRead(rec: Recording, bytes: seq<Byte>, top: seq<Box>)
    requires Laid(rec, bytes, top)
    ensures ParseBoxes(bytes, 0, |bytes|) == Ok(top) && |top| == 2 + 2 * |rec.groups| && rec.Fits()
    ensures forall i: nat | i < |top| :: Carries(bytes, top[i], ItemAt(rec, i).payload)
    ensures One(top, FourCC("ftyp")) == Ok(top[0]) && One(top, FourCC("moov")) == Ok(top[1])
  {
    var items := Items(rec);
    assert |items| <= MAX_BOXES;
    hide Recording.Fits, ItemAt, Items, Places, Pack, Carries, HoldsAt, Select, FourCC, ParseBoxes, Only;
    TopOnly(rec);
    HoldsAll(bytes);
    ListRead(bytes, 0, |bytes|, items);
    forall i: nat | i < |top|
      ensures Carries(bytes, top[i], ItemAt(rec, i).payload)
    {
      KindAt(rec, i);
      PackedHeld(bytes, 0, items, i);
    }
    KindAt(rec, 0);
    KindAt(rec, 1);
    OnlySelected(items, 0, 0);
    OnlySelected(items, 0, 1);
  }

  // ----------------------------------------------------------------- positions

  lemma {:induction false} SameSizes(a: seq<Item>, b: seq<Item>)
    requires Writable(a) && Writable(b) && |a| == |b|
    requires forall i | 0 <= i < |a| :: a[i].form == b[i].form && |a[i].payload| == |b[i].payload|
    ensures |Pack(a)| == |Pack(b)|
  {
    if a != [] {
      PackStep(a);
      PackStep(b);
      SameSizes(a[1..], b[1..]);
    }
  }

  lemma TrafSameSize(g: Group, clock: ClockFields, base: int, data: int)
    requires g.Fits() && clock.Fits()
    ensures |Pack(TrafItems(g, clock, base, data))| == |Pack(TrafItems(g, clock, 0, 0))|
  {
    hide Pack, HeaderFields.Print, ClockFields.Print, RunFields.Print, FourCC, Group.UnitsBefore;
    SameSizes(TrafItems(g, clock, base, data), TrafItems(g, clock, 0, 0));
  }

  /** The size of a moof does not depend on the offsets it holds. */
  lemma MoofSameSize(g: Group, clock: ClockFields, base: int, data: int)
    requires g.Fits() && clock.Fits()
    ensures 8 + |Pack(MoofItems(g, clock, base, data))| == MoofSize(g, clock)
  {
    hide Pack, TrafItems, FourCC, Group.Fits, ClockFields.Fits;
    TrafSameSize(g, clock, base, data);
    SameSizes(MoofItems(g, clock, base, data), MoofItems(g, clock, 0, 0));
  }

  /** What the two boxes of group n hold. */
  lemma GroupPayloads(rec: Recording, n: nat)
    requires rec.Fits() && n < |rec.groups|
    ensures ItemAt(rec, 2 + 2 * n) == Named("moof", MoofPayload(rec, n))
    ensures ItemAt(rec, 3 + 2 * n) == Item(rec.groups[n].form, MDAT, DataOf(rec.groups[n].Units()))
    ensures |MoofPayload(rec, n)| + 8 == MoofSize(rec.groups[n], rec.ClockOf(n))
  {
    PayloadSize(rec, n);
    hide Recording.Fits, MoofPayload, FourCC, DataOf, MoofSize, MoviePayload;
    assert (2 + 2 * n) / 2 - 1 == n && (3 + 2 * n) / 2 - 1 == n && (2 + 2 * n) % 2 == 0 && (3 + 2 * n) % 2 == 1;
  }

  lemma PayloadSize(rec: Recording, n: nat)
    requires rec.Fits() && n < |rec.groups|
    ensures |MoofPayload(rec, n)| + 8 == MoofSize(rec.groups[n], rec.ClockOf(n))
  {
    assert rec.groups[n].Fits() && rec.ClockOf(n).Fits();
    hide Recording.Fits, Pack, MoofItems, MoofSize, MoofStart, DataStart, BaseOf, Group.Fits, ClockFields.Fits;
    MoofSameSize(rec.groups[n], rec.ClockOf(n), BaseOf(rec, n), DataStart(rec, n));
  }

  lemma HeadPayloads(rec: Recording)
    requires rec.Fits()
    ensures ItemAt(rec, 0).Size() == 16 && ItemAt(rec, 1).Size() == 8 + |MoviePayload(rec.config)|
    ensures ItemAt(rec, 1).payload == MoviePayload(rec.config)
  {
    hide Recording.Fits, MoviePayload;
  }

  /** Group n lies where the writer said. */
  lemma GroupPosition(rec: Recording, bytes: seq<Byte>, top: seq<Box>, n: nat)
    requires Laid(rec, bytes, top) && rec.Fits() && n < |rec.groups| && |top| == 2 + 2 * |rec.groups|
    requires top[1 + 2 * n].end == MoofStart(rec, n)
    ensures top[2 + 2 * n].start == MoofStart(rec, n) && top[3 + 2 * n].data == DataStart(rec, n)
    ensures top[3 + 2 * n].end == DataStart(rec, n) + |DataOf(rec.groups[n].Units())| == MoofStart(rec, n + 1)
  {
    hide Recording.Fits, Items, Places, ItemAt, FourCC, DataOf, MoofPayload, MoofSize, File;
    var items := Items(rec);
    PlaceAt(items, 0, 1 + 2 * n);
    PlaceAt(items, 0, 2 + 2 * n);
    PlaceAt(items, 0, 3 + 2 * n);
    KindAt(rec, 2 + 2 * n);
    KindAt(rec, 3 + 2 * n);
    GroupPayloads(rec, n);
  }

  lemma {:induction false} Positions(rec: Recording, bytes: seq<Byte>, top: seq<Box>, n: nat)
    requires Laid(rec, bytes, top) && rec.Fits() && n <= |rec.groups| && |top| == 2 + 2 * |rec.groups|
    ensures top[1 + 2 * n].end == MoofStart(rec, n)
    decreases n
  {
    hide Recording.Fits, MoofSize, DataOf;
    if n == 0 {
      HeadPosition(rec, bytes, top);
    } else {
      Positions(rec, bytes, top, n - 1);
      GroupPosition(rec, bytes, top, n - 1);
    }
  }

  lemma HeadPosition(rec: Recording, bytes: seq<Byte>, top: seq<Box>)
    requires Laid(rec, bytes, top) && rec.Fits() && |top| == 2 + 2 * |rec.groups|
    ensures top[1].end == MoofStart(rec, 0)
  {
    hide Recording.Fits, Items, Places, ItemAt, FourCC, MoviePayload, File;
    PlaceAt(Items(rec), 0, 0);
    PlaceAt(Items(rec), 0, 1);
    KindAt(rec, 0);
    KindAt(rec, 1);
    HeadPayloads(rec);
  }

  // ----------------------------------------------------------------- fragments

  lemma {:induction false} AllSelected(items: seq<Item>, at: nat, kind: Kind)
    requires forall i | 0 <= i < |items| :: items[i].kind == kind
    ensures Select(Places(items, at), kind) == Places(items, at)
  {
    if items != [] {
      AllSelected(items[1..], at + items[0].Size(), kind);
    }
  }

  lemma SelectSkips(boxes: seq<Box>, kind: Kind)
    requires boxes != [] && boxes[0].kind != kind
    ensures Select(boxes, kind) == Select(boxes[1..], kind)
  {
  }

  lemma PlacesTail(items: seq<Item>, at: nat)
    requires items != []
    ensures Places(items, at)[0].kind == items[0].kind
              && Places(items, at)[1..] == Places(items[1..], at + items[0].Size())
  {
  }

  lemma TailSelected(items: seq<Item>, at: nat, kind: Kind)
    requires |items| >= 2 && items[0].kind != kind && items[1].kind != kind
    requires forall i | 2 <= i < |items| :: items[i].kind == kind
    ensures Select(Places(items, at), kind) == Places(items, at)[2..]
  {
    hide Select, Places;
    var second := at + items[0].Size();
    var third := second + items[1].Size();
    PlacesTail(items, at);
    PlacesTail(items[1..], second);
    SelectSkips(Places(items, at), kind);
    SelectSkips(Places(items[1..], second), kind);
    assert items[1..][1..] == items[2..];
    AllSelected(items[2..], third, kind);
    assert Places(items, at)[1..][1..] == Places(items, at)[2..];
  }

  /** A track fragment is one header, one clock and runs. */
  lemma TrafKinds(g: Group, clock: ClockFields, base: int, data: int)
    requires g.Fits() && clock.Fits()
    ensures var items := TrafItems(g, clock, base, data);
            && Only(items, 0) && Only(items, 1)
            && items[0] == Named("tfhd", g.header.Print()) && items[1] == Named("tfdt", clock.Print())
            && (forall k: nat | k < |g.runs| :: items[2 + k] == Named("trun", g.RunAt(k, base, data).Print()))
            && (forall i | 2 <= i < |items| :: items[i].kind == FourCC("trun"))
  {
    hide FourCC, HeaderFields.Print, ClockFields.Print, RunFields.Print, Group.RunAt, Group.Fits;
    KindsOfTraf();
  }

  lemma ListHeld(bytes: seq<Byte>, at: nat, end: nat, items: seq<Item>)
    requires Writable(items) && |items| <= MAX_BOXES && HoldsAt(bytes, at, Pack(items)) && |bytes| <= MAX_BYTES
    requires end == at + |Pack(items)| <= |bytes|
    ensures ParseBoxes(bytes, at, end) == Ok(Places(items, at))
    ensures forall i: nat | i < |items| ::
              Carries(bytes, Places(items, at)[i], items[i].payload) && Places(items, at)[i].kind == items[i].kind
  {
    hide HoldsAt, Pack, Places, ParseBoxes, Carries;
    ListRead(bytes, at, end, items);
    forall i: nat | i < |items|
      ensures Carries(bytes, Places(items, at)[i], items[i].payload) && Places(items, at)[i].kind == items[i].kind
    {
      PackedHeld(bytes, at, items, i);
    }
  }

  predicate RunList(items: seq<Item>) {
    && Only(items, 0) && Only(items, 1) && |items| > 2
    && items[0].kind == FourCC("tfhd") && items[1].kind == FourCC("tfdt")
    && forall i | 2 <= i < |items| :: items[i].kind == FourCC("trun")
  }

  lemma RunListSelected(items: seq<Item>, at: nat)
    requires RunList(items)
    ensures var list := Places(items, at);
            && One(list, FourCC("tfhd")) == Ok(list[0]) && One(list, FourCC("tfdt")) == Ok(list[1])
            && Select(list, FourCC("trun")) == list[2..]
  {
    hide FourCC, Places, Select, Only;
    OnlySelected(items, at, 0);
    OnlySelected(items, at, 1);
    KindsOfTraf();
    TailSelected(items, at, FourCC("trun"));
  }

  lemma KindsOfTraf()
    ensures FourCC("tfhd") != FourCC("trun") && FourCC("tfdt") != FourCC("trun") && FourCC("tfhd") != FourCC("tfdt")
  {
    hide FourCC;
    Differ("tfhd", "tfdt", 2);
    Differ("tfhd", "trun", 1);
    Differ("tfdt", "trun", 1);
  }

  lemma AllowedKinds(items: seq<Item>, at: nat)
    requires RunList(items) && forall i: nat | i < |items| :: Places(items, at)[i].kind == items[i].kind
    ensures forall box | box in Places(items, at) ::
              box.kind in [FourCC("tfhd"), FourCC("tfdt"), FourCC("trun"), FourCC("sdtp")]
  {
    hide FourCC, Places, Only;
    forall box | box in Places(items, at)
      ensures box.kind in [FourCC("tfhd"), FourCC("tfdt"), FourCC("trun"), FourCC("sdtp")]
    {
      var i :| 0 <= i < |items| && Places(items, at)[i] == box;
      assert box.kind == items[i].kind;
    }
  }

  /** The boxes of a written track fragment. */
  lemma TrafRead(bytes: seq<Byte>, traf: Box, g: Group, clock: ClockFields, base: int, data: int)
    requires g.Fits() && clock.Fits() && |bytes| <= MAX_BYTES
    requires Carries(bytes, traf, Pack(TrafItems(g, clock, base, data)))
    ensures var list := Places(TrafItems(g, clock, base, data), traf.data);
            && ParseBoxes(bytes, traf.data, traf.end) == Ok(list)
            && (forall box | box in list ::
                box.kind in [FourCC("tfhd"), FourCC("tfdt"), FourCC("trun"), FourCC("sdtp")])
            && One(list, FourCC("tfhd")) == Ok(list[0]) && One(list, FourCC("tfdt")) == Ok(list[1])
            && Select(list, FourCC("trun")) == list[2..]
            && Carries(bytes, list[0], g.header.Print()) && Carries(bytes, list[1], clock.Print())
            && (forall k: nat | k < |g.runs| :: Carries(bytes, list[2 + k], g.RunAt(k, base, data).Print()))
  {
    var items := TrafItems(g, clock, base, data);
    assert 2 < |items| <= MAX_BOXES;
    hide TrafItems, Places, Pack, Select, One, FourCC, ParseBoxes, Only, Group.Fits, ClockFields.Fits, RunFields.Fits;
    hide HeaderFields.Print, ClockFields.Print, RunFields.Print, Group.RunAt, Carries;
    TrafKinds(g, clock, base, data);
    assert RunList(items);
    CarriesHeld(bytes, traf, Pack(items));
    ListHeld(bytes, traf.data, traf.end, items);
    hide RunList;
    RunListSelected(items, traf.data);
    AllowedKinds(items, traf.data);
  }

  lemma CarriesHeld(bytes: seq<Byte>, box: Box, payload: seq<Byte>)
    requires Carries(bytes, box, payload)
    ensures HoldsAt(bytes, box.data, payload) && box.end == box.data + |payload| <= |bytes|
  {
  }

  /** What a written group decodes to. */
  function Decoded(g: Group, track: Track, start: nat, time: nat, base: int, data: int): Fragment
    requires g.Fits()
  {
    var header := g.header.Header(start, track);
    Fragment(header.base, time, seq(|g.runs|, k requires 0 <= k < |g.runs| => g.RunAt(k, base, data).Run(header)))
  }

  /** A written fragment opens with its own header, clock and runs. */
  lemma OpenRead(bytes: seq<Byte>, moof: Box, traf: Box, list: seq<Box>, track: Track, header: Header, time: nat)
    requires Inside(moof, |bytes|) && Child(bytes, moof, FourCC("traf")) == Ok(traf)
    requires ParseBoxes(bytes, traf.data, traf.end) == Ok(list) && |list| > 2
    requires forall box | box in list :: box.kind in [FourCC("tfhd"), FourCC("tfdt"), FourCC("trun"), FourCC("sdtp")]
    requires One(list, FourCC("tfhd")) == Ok(list[0]) && One(list, FourCC("tfdt")) == Ok(list[1])
    requires Select(list, FourCC("trun")) == list[2..]
    requires Inside(list[0], |bytes|) && ReadHeader(bytes, list[0], moof.start, track) == Ok(header)
    requires Inside(list[1], |bytes|) && ReadClock(bytes, list[1]) == Ok(time)
    ensures OpenFragment(bytes, moof, track) == Ok(FragmentBoxes(header, time, list[2..]))
  {
    hide FourCC, ParseBoxes, One, Select, ReadHeader, ReadClock, Child;
  }

  lemma RunsRead(bytes: seq<Byte>, moof: Box, track: Track, header: Header, time: nat, boxes: seq<Box>, runs: seq<Run>)
    requires Inside(moof, |bytes|) && OpenFragment(bytes, moof, track) == Ok(FragmentBoxes(header, time, boxes))
    requires |runs| == |boxes| && forall box | box in boxes :: Inside(box, |bytes|)
    requires forall k: nat | k < |runs| :: DecodeRun(bytes, boxes[k], header) == Ok(runs[k])
    ensures DecodeFragment(bytes, moof, track) == Ok(Fragment(header.base, time, runs))
  {
    hide OpenFragment, DecodeRun;
    assert RunsDecode(bytes, boxes, header);
    var f := DecodeFragment(bytes, moof, track);
    assert f.Ok? && |f.value.runs| == |runs|;
    assert f.value.runs == runs;
  }

  /** All offsets can be written. */
  ghost predicate Reachable(g: Group, base: int, data: int)
    requires g.Fits()
  {
    forall k: nat | k < |g.runs| :: g.RunAt(k, base, data).InRange()
  }

  /** Each written run decodes to what it was written from. */
  lemma RunBoxesRead(bytes: seq<Byte>, boxes: seq<Box>, g: Group, track: Track, header: Header, base: int, data: int)
    requires g.Fits() && g.Accepted(track) && Reachable(g, base, data) && |boxes| == |g.runs|
    requires header.duration == g.header.Header(0, track).duration && header.size == g.header.Header(0, track).size
    requires forall k: nat | k < |g.runs| :: Carries(bytes, boxes[k], g.RunAt(k, base, data).Print())
    ensures forall k: nat | k < |g.runs| ::
              Inside(boxes[k], |bytes|) && DecodeRun(bytes, boxes[k], header) == Ok(g.RunAt(k, base, data).Run(header))
  {
    hide Has, RunFields.Print, RunFields.Run, DecodeRun, HoldsAt, Group.UnitsBefore, DataOf;
    forall k: nat | k < |g.runs|
      ensures Inside(boxes[k], |bytes|) && DecodeRun(bytes, boxes[k], header) == Ok(g.RunAt(k, base, data).Run(header))
    {
      assert g.runs[k].Fits() && g.RunAt(k, base, data).Accepted();
      RunRead(bytes, boxes[k], header, g.RunAt(k, base, data));
    }
  }

  /** A written moof opens with its header, its clock and its runs. */
  lemma GroupOpened(bytes: seq<Byte>, moof: Box, g: Group, clock: ClockFields, track: Track, base: int, data: int)
    returns (boxes: seq<Box>)
    requires g.Fits() && clock.Fits() && clock.Accepted() && g.Accepted(track)
    requires |bytes| <= MAX_BYTES && Carries(bytes, moof, Pack(MoofItems(g, clock, base, data)))
    ensures Inside(moof, |bytes|) && |boxes| == |g.runs|
    ensures OpenFragment(bytes, moof, track) == Ok(FragmentBoxes(g.header.Header(moof.start, track), clock.time, boxes))
    ensures forall k: nat | k < |g.runs| :: Carries(bytes, boxes[k], g.RunAt(k, base, data).Print())
  {
    assert |g.runs| > 0 && g.header.Fits() && g.header.Accepted(track);
    var items := TrafItems(g, clock, base, data);
    hide HoldsAt, Pack, TrafItems, Places, FourCC, ParseBoxes, One, Select, Child, Only, ReadHeader, ReadClock;
    hide OpenFragment;
    hide Group.Fits, Group.Accepted, HeaderFields.Fits, HeaderFields.Accepted, HeaderFields.Header, Group.RunAt;
    hide ClockFields.Fits, ClockFields.Accepted, HeaderFields.Print, ClockFields.Print, RunFields.Print, MoofItems;
    MoofOnly(g, clock, base, data);
    ChildRead(bytes, moof, MoofItems(g, clock, base, data), 1);
    var traf := Child(bytes, moof, FourCC("traf")).value;
    TrafRead(bytes, traf, g, clock, base, data);
    var list := Places(items, traf.data);
    HeaderRead(bytes, list[0], g.header, moof.start, track);
    ClockRead(bytes, list[1], clock);
    OpenRead(bytes, moof, traf, list, track, g.header.Header(moof.start, track), clock.time);
    boxes := list[2..];
  }

  /** A written moof decodes to its time, its runs' offsets and their entries. */
  lemma MoofRead(bytes: seq<Byte>, moof: Box, g: Group, clock: ClockFields, track: Track, base: int, data: int)
    requires g.Fits() && clock.Fits() && clock.Accepted() && g.Accepted(track) && Reachable(g, base, data)
    requires |bytes| <= MAX_BYTES && Carries(bytes, moof, Pack(MoofItems(g, clock, base, data)))
    ensures DecodeFragment(bytes, moof, track) == Ok(Decoded(g, track, moof.start, clock.time, base, data))
  {
    hide Pack, OpenFragment, DecodeFragment, DecodeRun, Group.Fits, Group.Accepted, Reachable, Group.RunAt, MoofItems;
    hide Carries;
    hide ClockFields.Fits, ClockFields.Accepted, RunFields.Print, RunFields.Run, HeaderFields.Header;
    var boxes := GroupOpened(bytes, moof, g, clock, track, base, data);
    SameSays(g.header, moof.start, track);
    var header := g.header.Header(moof.start, track);
    RunBoxesRead(bytes, boxes, g, track, header, base, data);
    RunsRead(bytes, moof, track, header, clock.time, boxes, Decoded(g, track, moof.start, clock.time, base, data).runs);
  }

  lemma SameSays(h: HeaderFields, start: nat, track: Track)
    ensures h.Header(start, track).duration == h.Header(0, track).duration
              && h.Header(start, track).size == h.Header(0, track).size
    ensures h.Header(start, track).base == if Has(h.flags, 1) then h.base else start
  {
  }

  lemma MoofOnly(g: Group, clock: ClockFields, base: int, data: int)
    requires g.Fits() && clock.Fits()
    ensures var items := MoofItems(g, clock, base, data);
            && Only(items, 1) && items[1].kind == FourCC("traf")
                && items[1].payload == Pack(TrafItems(g, clock, base, data))
  {
    hide FourCC, Pack, TrafItems, Group.Fits, ClockFields.Fits;
    Differ("mfhd", "traf", 0);
  }

  // ------------------------------------------------------------- the whole file

  lemma {:induction false} DataAppend(a: seq<Unit>, b: seq<Unit>)
    ensures DataOf(a + b) == DataOf(a) + DataOf(b)
    decreases |b|
  {
    if b == [] {
      assert a + b == a;
    } else {
      assert (a + b)[..|a + b| - 1] == a + b[..|b| - 1];
      DataAppend(a, b[..|b| - 1]);
    }
  }

  lemma FlattenSnoc<T>(lists: seq<seq<T>>, n: nat)
    requires n < |lists|
    ensures Flatten(lists[..n + 1]) == Flatten(lists[..n]) + lists[n]
  {
    assert lists[..n + 1] == lists[..n] + [lists[n]];
    FlattenAppend(lists[..n], [lists[n]]);
    assert Flatten([lists[n]]) == lists[n];
  }

  lemma FlattenSplit<T>(lists: seq<seq<T>>, n: nat)
    requires n <= |lists|
    ensures Flatten(lists) == Flatten(lists[..n]) + Flatten(lists[n..])
  {
    assert lists == lists[..n] + lists[n..];
    FlattenAppend(lists[..n], lists[n..]);
  }

  lemma OffsetInRange(g: Group, base: int, data: int, k: nat)
    requires g.Fits() && k < |g.runs| && 0 <= base <= 0x8000_0000 && 0 <= data
               && data + |DataOf(g.Units())| <= MAX_BYTES
    ensures g.RunAt(k, base, data).InRange()
  {
    hide DataOf, Flatten, Group.Fits;
    FlattenSplit(g.Lists(), k);
    DataAppend(g.UnitsBefore(k), Flatten(g.Lists()[k..]));
  }

  /** Every offset of a group fits 32 bits, because the file is small and the base within reach. */
  lemma GroupReachable(rec: Recording, bytes: seq<Byte>, top: seq<Box>, n: nat, track: Track)
    requires Laid(rec, bytes, top) && rec.Fits() && n < |rec.groups| && |top| == 2 + 2 * |rec.groups|
    requires rec.groups[n].Fits() && rec.groups[n].Accepted(track)
    ensures Reachable(rec.groups[n], BaseOf(rec, n), DataStart(rec, n))
  {
    var g, data := rec.groups[n], DataStart(rec, n);
    assert 0 <= BaseOf(rec, n) && (Has(g.header.flags, 1) ==> BaseOf(rec, n) <= 0x8000_0000);
    hide Recording.Fits, Group.Fits, Group.Accepted, DataOf, Laid, Has, MoofSize, Group.Units, Group.RunAt, MoofStart;
    Positions(rec, bytes, top, n);
    GroupPosition(rec, bytes, top, n);
    GroupInside(rec, bytes, top, n);
    assert 0 <= BaseOf(rec, n) <= 0x8000_0000;
    forall k: nat | k < |g.runs|
      ensures g.RunAt(k, BaseOf(rec, n), data).InRange()
    {
      OffsetInRange(g, BaseOf(rec, n), data, k);
    }
  }

  lemma GroupInside(rec: Recording, bytes: seq<Byte>, top: seq<Box>, n: nat)
    requires Laid(rec, bytes, top) && n < |rec.groups| && |top| == 2 + 2 * |rec.groups|
    ensures top[3 + 2 * n].end <= |bytes| <= MAX_BYTES && Inside(top[2 + 2 * n], |bytes|)
    ensures Carries(bytes, top[2 + 2 * n], MoofPayload(rec, n))
    ensures HoldsAt(bytes, top[3 + 2 * n].data, DataOf(rec.groups[n].Units()))
  {
    hide Recording.Fits, Items, Places, ItemAt, DataOf, MoofPayload, HoldsAt, FourCC, File;
    TopRead(rec, bytes, top);
    GroupPayloads(rec, n);
    assert Carries(bytes, top[2 + 2 * n], ItemAt(rec, 2 + 2 * n).payload);
    assert Carries(bytes, top[3 + 2 * n], ItemAt(rec, 3 + 2 * n).payload);
  }

  function FragmentAt(rec: Recording, n: nat): Fragment
    requires rec.Fits() && n < |rec.groups|
  {
    Decoded(rec.groups[n], rec.config.Track(), MoofStart(rec, n), rec.TimeOf(n), BaseOf(rec, n), DataStart(rec, n))
  }

  function FragmentsOf(rec: Recording): (fragments: seq<Fragment>)
    requires rec.Fits()
    ensures |fragments| == |rec.groups|
  {
    seq(|rec.groups|, n requires 0 <= n < |rec.groups| => FragmentAt(rec, n))
  }

  /** The fragment of group n, read at its place. */
  lemma FragmentRead(rec: Recording, rate: nat, bytes: seq<Byte>, top: seq<Box>, n: nat)
    requires Laid(rec, bytes, top) && rec.Accepted(rate) && n < |rec.groups| && |top| == 2 + 2 * |rec.groups|
    ensures Inside(top[2 + 2 * n], |bytes|)
    ensures DecodeFragment(bytes, top[2 + 2 * n], rec.config.Track()) == Ok(FragmentAt(rec, n))
  {
    var g, track := rec.groups[n], rec.config.Track();
    assert g.Fits() && rec.ClockOf(n).Fits() && g.Accepted(track) && |bytes| <= MAX_BYTES;
    assert rec.ClockOf(n).Accepted();
    hide Recording.Fits, Recording.Accepted, Group.Fits, Group.Accepted, ClockFields.Fits, ClockFields.Accepted, Laid;
    hide MoofItems, Pack, DecodeFragment, Decoded, Carries, MoofSize, DataOf, Config.Track;
    GroupInside(rec, bytes, top, n);
    Positions(rec, bytes, top, n);
    GroupPosition(rec, bytes, top, n);
    GroupReachable(rec, bytes, top, n, track);
    MoofRead(bytes, top[2 + 2 * n], g, rec.ClockOf(n), track, BaseOf(rec, n), DataStart(rec, n));
  }

  lemma FileNotEmpty(rec: Recording)
    requires rec.Fits()
    ensures |File(rec)| > 0
  {
    hide Recording.Fits, ItemAt;
    PackStep(Items(rec));
  }

  lemma MovieDecoded(rec: Recording, rate: nat, bytes: seq<Byte>, top: seq<Box>)
    requires Laid(rec, bytes, top) && rec.Accepted(rate)
    ensures (forall box | box in top :: Inside(box, |bytes|)) && ReadTrack(bytes, top, rate) == Ok(rec.config.Track())
  {
    assert rec.config.Fits() && rec.config.Accepted(rate) && |bytes| <= MAX_BYTES;
    hide Recording.Fits, Recording.Accepted, Config.Fits, Config.Accepted, Laid, Pack, Carries, ReadTrack, FourCC;
    hide ParseBoxes;
    hide File, One, ItemAt, MovieItems;
    TopRead(rec, bytes, top);
    HeadPayloads(rec);
    MovieWritable(rec.config);
    assert Carries(bytes, top[1], ItemAt(rec, 1).payload);
    TopInside(rec, bytes, top);
    TrackRead(bytes, top, top[1], rec.config, rate);
  }

  lemma TopInside(rec: Recording, bytes: seq<Byte>, top: seq<Box>)
    requires Laid(rec, bytes, top)
    ensures forall box | box in top :: Inside(box, |bytes|)
  {
    hide Recording.Fits, Items, Places, ItemAt, File;
    TopRead(rec, bytes, top);
  }

  lemma DecodeIs(bytes: seq<Byte>, rate: nat, top: seq<Box>, track: Track, moofs: seq<Box>, fragments: seq<Fragment>)
    requires 0 < |bytes| <= MAX_BYTES && ParseBoxes(bytes, 0, |bytes|) == Ok(top)
    requires (forall box | box in top :: Inside(box, |bytes|)) && ReadTrack(bytes, top, rate) == Ok(track)
    requires moofs == Select(top, FourCC("moof")) && (forall box | box in moofs :: Inside(box, |bytes|))
    requires |fragments| == |moofs|
    requires forall n: nat | n < |moofs| :: DecodeFragment(bytes, moofs[n], track) == Ok(fragments[n])
    ensures Decode(bytes, rate) == Ok(Movie(top, track, fragments))
  {
    hide ReadTrack, Select, FourCC, ParseBoxes, DecodeFragment;
    assert FragmentsDecode(bytes, moofs, track);
    var movie := Decode(bytes, rate);
    assert movie.Ok? && movie.value.top == top && movie.value.track == track;
    assert movie.value.fragments == fragments;
  }

  /** The written file decodes to its boxes, its track and its fragments. */
  lemma FileDecoded(rec: Recording, rate: nat, bytes: seq<Byte>, top: seq<Box>)
    requires Laid(rec, bytes, top) && rec.Accepted(rate) && |top| == 2 + 2 * |rec.groups|
    ensures Decode(bytes, rate) == Ok(Movie(top, rec.config.Track(), FragmentsOf(rec)))
  {
    assert rec.Fits() && 0 < |bytes| <= MAX_BYTES by { FileNotEmpty(rec); }
    hide Recording.Fits, Recording.Accepted, Laid, ReadTrack, Select, FourCC, ParseBoxes, FragmentAt, EveryOther;
    hide Config.Track;
    hide DecodeFragment, Decode, One, Carries, ItemAt, FragmentsOf;
    TopRead(rec, bytes, top);
    MovieDecoded(rec, rate, bytes, top);
    FragmentBoxesSelected(rec, bytes, top);
    MoofsDecode(rec, rate, bytes, top);
    DecodeIs(bytes, rate, top, rec.config.Track(), EveryOther(top, 0, |rec.groups|), FragmentsOf(rec));
  }

  lemma MoofsDecode(rec: Recording, rate: nat, bytes: seq<Byte>, top: seq<Box>)
    requires Laid(rec, bytes, top) && rec.Accepted(rate) && rec.Fits() && |top| == 2 + 2 * |rec.groups|
    ensures var moofs := EveryOther(top, 0, |rec.groups|);
            && (forall box | box in moofs :: Inside(box, |bytes|))
            && forall n: nat | n < |moofs| :: DecodeFragment(bytes, moofs[n], rec.config.Track())
                == Ok(FragmentsOf(rec)[n])
  {
    hide Recording.Fits, Recording.Accepted, Laid, DecodeFragment, FragmentAt, Config.Track;
    var moofs := EveryOther(top, 0, |rec.groups|);
    forall n: nat | n < |moofs|
      ensures Inside(moofs[n], |bytes|)
      ensures DecodeFragment(bytes, moofs[n], rec.config.Track()) == Ok(FragmentAt(rec, n))
    {
      FragmentRead(rec, rate, bytes, top, n);
    }
  }

  // ----------------------------------------------------------------- placement

  lemma EntriesJoin(a: seq<Unit>, b: seq<Unit>)
    ensures EntriesOf(a + b) == EntriesOf(a) + EntriesOf(b)
  {
  }

  lemma EntriesSnoc(units: seq<Unit>)
    requires units != []
    ensures var front, u := units[..|units| - 1], units[|units| - 1];
            EntriesOf(units) == EntriesOf(front) + [Entry(u.duration, |u.bytes|)]
  {
  }

  lemma {:induction false} SizesAreData(units: seq<Unit>)
    ensures Sizes(EntriesOf(units)) == |DataOf(units)|
    decreases |units|
  {
    if units != [] {
      var front := units[..|units| - 1];
      SizesAreData(front);
      EntriesSnoc(units);
      assert EntriesOf(units)[..|units| - 1] == EntriesOf(front);
    }
  }

  /** Entries placed behind others start where those end. */
  predicate Joins(start: int, a: seq<Entry>, b: seq<Entry>) {
    Place(start, a + b) == Place(start, a) + Place(start + Sizes(a), b) && Sizes(a + b) == Sizes(a) + Sizes(b)
  }

  lemma JoinsNone(start: int, a: seq<Entry>)
    ensures Joins(start, a, [])
  {
    assert a + [] == a;
  }

  lemma JoinsOneMore(start: int, a: seq<Entry>, b: seq<Entry>, e: Entry)
    requires Joins(start, a, b)
    ensures Joins(start, a, b + [e])
  {
    hide Place, Sizes;
    PlaceSnoc(start, a + b, e);
    PlaceSnoc(start + Sizes(a), b, e);
    assert a + (b + [e]) == a + b + [e];
  }

  lemma {:induction false} PlaceJoin(start: int, a: seq<Entry>, b: seq<Entry>)
    ensures Joins(start, a, b)
    decreases |b|
  {
    hide Joins;
    if b == [] {
      JoinsNone(start, a);
    } else {
      PlaceJoin(start, a, b[..|b| - 1]);
      JoinsOneMore(start, a, b[..|b| - 1], b[|b| - 1]);
      assert b == b[..|b| - 1] + [b[|b| - 1]];
    }
  }

  /** The entries of a run, as its boxes give them, are those of its units. */
  lemma RunEntries(g: Group, track: Track, start: nat, time: nat, base: int, data: int, k: nat)
    requires g.Fits() && g.Accepted(track) && k < |g.runs|
    ensures var f := Decoded(g, track, start, time, base, data);
            && f.runs[k].entries == EntriesOf(g.runs[k].units) && f.Addressed()
            && f.runs[k].offset
                == (if Has(g.runs[k].flags, 1) then Some(data + |DataOf(g.UnitsBefore(k))| - base) else None)
            && f.base == if Has(g.header.flags, 1) then g.header.base else start
  {
    hide Has, DataOf, Group.UnitsBefore;
    SameSays(g.header, start, track);
    assert g.runs[k].Accepted(g.header.Header(0, track).duration, g.header.Header(0, track).size);
    var f := Decoded(g, track, start, time, base, data);
    assert f.runs[k].entries == EntriesOf(g.runs[k].units);
  }

  lemma BehindRun(g: Group, k: nat)
    requires k < |g.runs|
    ensures |DataOf(g.UnitsBefore(k + 1))| == |DataOf(g.UnitsBefore(k))| + Sizes(EntriesOf(g.runs[k].units))
  {
    hide DataOf, EntriesOf, Flatten, Sizes;
    SizesAreData(g.runs[k].units);
    FlattenSnoc(g.Lists(), k);
    DataAppend(g.UnitsBefore(k), g.runs[k].units);
  }

  lemma StartOfRun(f: Fragment, k: nat)
    requires f.Addressed() && k < |f.runs|
    ensures RunStart(f, k) == if f.runs[k].offset.Some? then f.base + f.runs[k].offset.value
                              else RunStart(f, k - 1) + Sizes(f.runs[k - 1].entries)
  {
  }

  /** Run k starts behind the units of the runs before it. */
  predicate StartsAt(f: Fragment, g: Group, data: int, k: nat) {
    f.Addressed() && k < |f.runs| == |g.runs| && RunStart(f, k) == data + |DataOf(g.UnitsBefore(k))|
  }

  lemma NextStart(f: Fragment, g: Group, data: int, k: nat)
    requires 0 < k < |g.runs| && StartsAt(f, g, data, k - 1)
    requires f.runs[k].offset.None? && f.runs[k - 1].entries == EntriesOf(g.runs[k - 1].units)
    ensures StartsAt(f, g, data, k)
  {
    hide DataOf, EntriesOf, Sizes, Group.UnitsBefore, RunStart;
    StartOfRun(f, k);
    BehindRun(g, k - 1);
  }

  lemma OwnStart(f: Fragment, g: Group, data: int, k: nat)
    requires f.Addressed() && k < |f.runs| == |g.runs|
    requires f.runs[k].offset == Some(data + |DataOf(g.UnitsBefore(k))| - f.base)
    ensures StartsAt(f, g, data, k)
  {
    hide DataOf, Group.UnitsBefore;
  }

  lemma {:induction false} RunStarts(g: Group, track: Track, start: nat, time: nat, base: int, data: int, k: nat)
    requires g.Fits() && g.Accepted(track) && k < |g.runs|
    requires base == if Has(g.header.flags, 1) then g.header.base else start
    ensures StartsAt(Decoded(g, track, start, time, base, data), g, data, k)
    decreases k
  {
    var f := Decoded(g, track, start, time, base, data);
    assert Has(g.runs[0].flags, 1) && |f.runs| == |g.runs|;
    hide Has, DataOf, Decoded, EntriesOf, Group.Fits, Group.Accepted, Group.UnitsBefore, StartsAt;
    RunEntries(g, track, start, time, base, data, k);
    if Has(g.runs[k].flags, 1) {
      OwnStart(f, g, data, k);
    } else {
      RunEntries(g, track, start, time, base, data, k - 1);
      RunStarts(g, track, start, time, base, data, k - 1);
      NextStart(f, g, data, k);
    }
  }

  lemma RunPlaced(f: Fragment, k: nat)
    requires f.Addressed() && k < |f.runs|
    ensures PlaceRuns(f, k + 1) == PlaceRuns(f, k) + Place(RunStart(f, k), f.runs[k].entries)
  {
  }

  /** One more run behind those that were placed. */
  lemma NextRunPlaced(f: Fragment, g: Group, data: int, k: nat)
    requires f.Addressed() && |f.runs| == |g.runs| && k < |g.runs|
    requires PlaceRuns(f, k) == Place(data, EntriesOf(g.UnitsBefore(k)))
    requires RunStart(f, k) == data + |DataOf(g.UnitsBefore(k))| && f.runs[k].entries == EntriesOf(g.runs[k].units)
    ensures PlaceRuns(f, k + 1) == Place(data, EntriesOf(g.UnitsBefore(k + 1)))
  {
    hide DataOf, EntriesOf, Flatten, Place, PlaceRuns, RunStart, Sizes;
    var units, before := g.runs[k].units, g.UnitsBefore(k);
    RunPlaced(f, k);
    FlattenSnoc(g.Lists(), k);
    EntriesJoin(before, units);
    SizesAreData(before);
    PlaceJoin(data, EntriesOf(before), EntriesOf(units));
  }

  lemma NoRunPlaced(f: Fragment, g: Group, data: int)
    requires f.Addressed()
    ensures PlaceRuns(f, 0) == Place(data, EntriesOf(g.UnitsBefore(0)))
  {
  }

  /** The runs of a group place its units back to back in its data. */
  lemma {:induction false} RunsPlaced(g: Group, track: Track, start: nat, time: nat, base: int, data: int, k: nat)
    requires g.Fits() && g.Accepted(track) && k <= |g.runs|
    requires base == if Has(g.header.flags, 1) then g.header.base else start
    ensures var f := Decoded(g, track, start, time, base, data);
            f.Addressed() && |f.runs| == |g.runs| && PlaceRuns(f, k) == Place(data, EntriesOf(g.UnitsBefore(k)))
    decreases k
  {
    var f := Decoded(g, track, start, time, base, data);
    assert |g.runs| > 0 && |f.runs| == |g.runs|;
    hide Has, DataOf, Decoded, EntriesOf, Flatten, Group.Fits, Group.Accepted, Place, PlaceRuns, RunStart;
    RunEntries(g, track, start, time, base, data, 0);
    if k == 0 {
      NoRunPlaced(f, g, data);
    } else {
      RunsPlaced(g, track, start, time, base, data, k - 1);
      RunStarts(g, track, start, time, base, data, k - 1);
      RunEntries(g, track, start, time, base, data, k - 1);
      NextRunPlaced(f, g, data, k - 1);
    }
  }

  /** The samples of the first n groups, each group from the payload of its mdat on. */
  function Placed(rec: Recording, n: nat): seq<Sample>
    requires rec.Fits() && n <= |rec.groups|
  {
    if n == 0 then [] else Placed(rec, n - 1) + Place(DataStart(rec, n - 1), EntriesOf(rec.groups[n - 1].Units()))
  }

  lemma GroupPlaced(rec: Recording, rate: nat, n: nat)
    requires rec.Fits() && rec.Accepted(rate) && n < |rec.groups|
    ensures var f := FragmentAt(rec, n);
            f.Addressed() && PlaceRuns(f, |f.runs|) == Place(DataStart(rec, n), EntriesOf(rec.groups[n].Units()))
  {
    assert rec.groups[n].Fits() && rec.groups[n].Accepted(rec.config.Track());
    assert BaseOf(rec, n)
           == if Has(rec.groups[n].header.flags, 1) then rec.groups[n].header.base else MoofStart(rec, n);
    hide Recording.Fits, Recording.Accepted, Group.Fits, Group.Accepted, Place, EntriesOf, PlaceRuns, Decoded;
    hide DataStart;
    hide MoofStart, BaseOf, Has, Recording.TimeOf, Config.Track;
    WholeGroupPlaced(rec.groups[n], rec.config.Track(), MoofStart(rec, n), rec.TimeOf(n), BaseOf(rec, n),
        DataStart(rec, n));
  }

  lemma WholeGroupPlaced(g: Group, track: Track, start: nat, time: nat, base: int, data: int)
    requires g.Fits() && g.Accepted(track)
    requires base == if Has(g.header.flags, 1) then g.header.base else start
    ensures var f := Decoded(g, track, start, time, base, data);
            f.Addressed() && PlaceRuns(f, |f.runs|) == Place(data, EntriesOf(g.Units()))
  {
    hide Has, Decoded, EntriesOf, Flatten, Group.Fits, Group.Accepted, Place, PlaceRuns;
    RunsPlaced(g, track, start, time, base, data, |g.runs|);
    assert g.Lists()[..|g.runs|] == g.Lists();
  }

  lemma {:induction false} SamplesPlaced(rec: Recording, rate: nat, fragments: seq<Fragment>, n: nat)
    requires rec.Fits() && rec.Accepted(rate) && n <= |rec.groups|
    requires fragments == FragmentsOf(rec) && AllAddressed(fragments)
    ensures FileSamples(fragments, n) == Placed(rec, n)
    decreases n
  {
    hide Recording.Fits, Recording.Accepted, Place, EntriesOf, FragmentAt, PlaceRuns, DataStart;
    if n > 0 {
      SamplesPlaced(rec, rate, fragments, n - 1);
      GroupPlaced(rec, rate, n - 1);
      assert fragments[n - 1] == FragmentAt(rec, n - 1);
    }
  }

  lemma AllPlaced(rec: Recording, rate: nat)
    requires rec.Fits() && rec.Accepted(rate)
    ensures var fragments := FragmentsOf(rec);
            AllAddressed(fragments) && forall n: nat | n <= |rec.groups| :: FileSamples(fragments, n) == Placed(rec, n)
  {
    hide Recording.Fits, Recording.Accepted, Place, EntriesOf, FragmentAt, PlaceRuns, FileSamples, Placed;
    var fragments := FragmentsOf(rec);
    forall n: nat | n < |fragments|
      ensures fragments[n] == FragmentAt(rec, n) && fragments[n].Addressed()
    {
      GroupPlaced(rec, rate, n);
    }
    forall n: nat | n <= |rec.groups|
      ensures FileSamples(fragments, n) == Placed(rec, n)
    {
      SamplesPlaced(rec, rate, fragments, n);
    }
  }

  // ----------------------------------------------------------------- contents

  /** The samples are these units, and their bytes stand where the samples say. */
  predicate Matches(bytes: seq<Byte>, samples: seq<Sample>, units: seq<Unit>) {
    && |samples| == |units|
    && forall k | 0 <= k < |samples| ::
         && samples[k].size == |units[k].bytes| && samples[k].duration == units[k].duration
         && Payload(bytes, samples[k]) == units[k].bytes
  }

  /** The samples ascend without overlap between `lo` and `hi`. */
  predicate Ascends(samples: seq<Sample>, lo: int, hi: int) {
    && lo <= hi
    && (forall k | 0 <= k < |samples| :: lo <= samples[k].start && samples[k].start + samples[k].size <= hi)
    && (forall j, k | 0 <= j < k < |samples| :: samples[j].start + samples[j].size <= samples[k].start)
  }

  lemma MatchesJoin(bytes: seq<Byte>, a: seq<Sample>, b: seq<Sample>, u: seq<Unit>, v: seq<Unit>)
    requires Matches(bytes, a, u) && Matches(bytes, b, v)
    ensures Matches(bytes, a + b, u + v)
  {
    hide Payload;
  }

  lemma AscendsJoin(a: seq<Sample>, b: seq<Sample>, lo: int, middle: int, from: int, hi: int)
    requires Ascends(a, lo, middle) && Ascends(b, from, hi) && middle <= from
    ensures Ascends(a + b, lo, hi)
  {
  }

  lemma SampleFound(bytes: seq<Byte>, u: Unit, end: nat)
    requires HoldsAt(bytes, end, u.bytes)
    ensures var s := Sample(end, |u.bytes|, u.duration);
            Matches(bytes, [s], [u]) && Ascends([s], end, end + |u.bytes|)
  {
    HeldFits(bytes, end, u.bytes);
  }

  /** One more unit behind those that were found. */
  lemma UnitFound(bytes: seq<Byte>, start: nat, front: seq<Unit>, u: Unit, entries: seq<Entry>, end: nat)
    requires HoldsAt(bytes, end, u.bytes) && end == start + Sizes(entries)
    requires Matches(bytes, Place(start, entries), front) && Ascends(Place(start, entries), start, end)
    ensures var all := entries + [Entry(u.duration, |u.bytes|)];
            Matches(bytes, Place(start, all), front + [u]) && Ascends(Place(start, all), start, end + |u.bytes|)
  {
    hide Place, HoldsAt, Sizes, Matches, Ascends;
    var s := Sample(end, |u.bytes|, u.duration);
    SampleFound(bytes, u, end);
    PlaceSnoc(start, entries, Entry(u.duration, |u.bytes|));
    MatchesJoin(bytes, Place(start, entries), [s], front, [u]);
    AscendsJoin(Place(start, entries), [s], start, end, end, end + |u.bytes|);
  }

  lemma NoUnits(bytes: seq<Byte>, start: nat, units: seq<Unit>)
    requires units == []
    ensures DataOf(units) == []
    ensures Matches(bytes, Place(start, EntriesOf(units)), units)
              && Ascends(Place(start, EntriesOf(units)), start, start)
  {
  }

  /** The units of a group are found back to back in its data. */
  lemma {:induction false} GroupFound(bytes: seq<Byte>, start: nat, units: seq<Unit>)
    requires HoldsAt(bytes, start, DataOf(units))
    ensures Matches(bytes, Place(start, EntriesOf(units)), units)
    ensures Ascends(Place(start, EntriesOf(units)), start, start + |DataOf(units)|)
    decreases |units|
  {
    hide EntriesOf, Place, HoldsAt, Matches, Ascends, Sizes;
    if units == [] {
      NoUnits(bytes, start, units);
    } else {
      var front, u := units[..|units| - 1], units[|units| - 1];
      HoldsSplit(bytes, start, DataOf(front), u.bytes);
      GroupFound(bytes, start, front);
      EntriesSnoc(units);
      SizesAreData(front);
      UnitFound(bytes, start, front, u, EntriesOf(front), start + |DataOf(front)|);
      assert front + [u] == units;
    }
  }

  /** What was found in the first n groups: the right bytes, ascending, each in the payload of an mdat. */
  predicate Found(rec: Recording, bytes: seq<Byte>, top: seq<Box>, samples: seq<Sample>, n: nat)
    requires |top| == 2 + 2 * |rec.groups| && n <= |rec.groups|
  {
    && Matches(bytes, samples, Flatten(rec.Lists()[..n])) && Ascends(samples, 0, top[1 + 2 * n].end)
    && forall s | s in samples :: Within(s, EveryOther(top, 1, |rec.groups|))
  }

  lemma FoundStep(rec: Recording, bytes: seq<Byte>, top: seq<Box>, earlier: seq<Sample>, n: nat, units: seq<Unit>)
    requires |top| == 2 + 2 * |rec.groups| && n < |rec.groups| && Found(rec, bytes, top, earlier, n)
    requires units == rec.groups[n].Units() && HoldsAt(bytes, top[3 + 2 * n].data, DataOf(units))
    requires top[1 + 2 * n].end <= top[3 + 2 * n].data && top[3 + 2 * n].end == top[3 + 2 * n].data + |DataOf(units)|
    ensures Found(rec, bytes, top, earlier + Place(top[3 + 2 * n].data, EntriesOf(units)), n + 1)
  {
    hide Place, EntriesOf, DataOf, Matches, Ascends, HoldsAt, Flatten, Within, EveryOther;
    var data := top[3 + 2 * n].data;
    var more := Place(data, EntriesOf(units));
    GroupFound(bytes, data, units);
    FlattenSnoc(rec.Lists(), n);
    MatchesJoin(bytes, earlier, more, Flatten(rec.Lists()[..n]), units);
    AscendsJoin(earlier, more, 0, top[1 + 2 * n].end, data, top[3 + 2 * n].end);
    GroupWithin(top, more, n, |rec.groups|);
  }

  lemma GroupWithin(top: seq<Box>, samples: seq<Sample>, n: nat, count: nat)
    requires |top| == 2 + 2 * count && n < count && Ascends(samples, top[3 + 2 * n].data, top[3 + 2 * n].end)
    ensures forall s | s in samples :: Within(s, EveryOther(top, 1, count))
  {
    var mdats := EveryOther(top, 1, count);
    assert mdats[n] == top[3 + 2 * n];
    assert mdats[n] in mdats;
  }

  lemma NothingFound(rec: Recording, bytes: seq<Byte>, top: seq<Box>)
    requires |top| == 2 + 2 * |rec.groups|
    ensures Found(rec, bytes, top, [], 0)
  {
  }

  lemma {:induction false} AllFound(rec: Recording, bytes: seq<Byte>, top: seq<Box>, n: nat)
    requires Laid(rec, bytes, top) && rec.Fits() && |top| == 2 + 2 * |rec.groups| && n <= |rec.groups|
    ensures Found(rec, bytes, top, Placed(rec, n), n)
    decreases n
  {
    hide Laid, Recording.Fits, DataOf, HoldsAt, Found, Place, EntriesOf, MoofStart, DataStart;
    if n == 0 {
      NothingFound(rec, bytes, top);
    } else {
      AllFound(rec, bytes, top, n - 1);
      GroupLaid(rec, bytes, top, n - 1);
      FoundStep(rec, bytes, top, Placed(rec, n - 1), n - 1, rec.groups[n - 1].Units());
    }
  }

  lemma GroupLaid(rec: Recording, bytes: seq<Byte>, top: seq<Box>, n: nat)
    requires Laid(rec, bytes, top) && rec.Fits() && |top| == 2 + 2 * |rec.groups| && n < |rec.groups|
    ensures var data := DataOf(rec.groups[n].Units());
            && HoldsAt(bytes, top[3 + 2 * n].data, data) && top[3 + 2 * n].data == DataStart(rec, n)
            && top[1 + 2 * n].end <= top[3 + 2 * n].data && top[3 + 2 * n].end == top[3 + 2 * n].data + |data|
  {
    hide Laid, Recording.Fits, DataOf, HoldsAt, MoofSize;
    Positions(rec, bytes, top, n);
    GroupPosition(rec, bytes, top, n);
    GroupInside(rec, bytes, top, n);
  }

  // ---------------------------------------------------------------- acceptance

  lemma {:induction false} SameTime(bytes: seq<Byte>, samples: seq<Sample>, units: seq<Unit>, k: nat)
    requires Matches(bytes, samples, units) && k <= |samples|
    ensures Duration(samples[..k]) == UnitTime(units[..k])
    decreases k
  {
    if k > 0 {
      SameTime(bytes, samples, units, k - 1);
      assert samples[..k][..k - 1] == samples[..k - 1] && units[..k][..k - 1] == units[..k - 1];
    }
  }

  lemma {:induction false} TimeRises(units: seq<Unit>, k: nat)
    requires k <= |units|
    ensures UnitTime(units[..k]) <= UnitTime(units)
    decreases |units|
  {
    if k == |units| {
      assert units[..k] == units;
    } else {
      var front := units[..|units| - 1];
      assert front[..k] == units[..k];
      TimeRises(front, k);
    }
  }

  lemma {:induction false} ListsFit(lists: seq<seq<Unit>>)
    requires forall i | 0 <= i < |lists| :: UnitsFit(lists[i])
    ensures UnitsFit(Flatten(lists))
  {
    if lists != [] {
      ListsFit(lists[1..]);
    }
  }

  lemma AllUnitsFit(rec: Recording)
    requires rec.Fits()
    ensures UnitsFit(rec.Units())
  {
    forall n | 0 <= n < |rec.groups|
      ensures UnitsFit(rec.Lists()[n])
    {
      assert rec.groups[n].Fits();
      assert forall k | 0 <= k < |rec.groups[n].runs| :: rec.groups[n].runs[k].Fits();
      ListsFit(rec.groups[n].Lists());
    }
    ListsFit(rec.Lists());
  }

  /** What acceptance says of the units. */
  lemma UnitsGood(rec: Recording, rate: nat)
    requires rec.Accepted(rate)
    ensures var units := rec.Units();
            && rec.first + UnitTime(units) <= MAX_SAFE
            && forall k | 0 <= k < |units| :: units[k].Fits() && units[k].duration * rate <= 2048 * rec.config.timescale
  {
    var units := rec.Units();
    assert rec.Lists()[..|rec.groups|] == rec.Lists();
    assert rec.first + UnitTime(units) <= MAX_SAFE;
    AllUnitsFit(rec);
    hide Recording.Fits, UnitTime, Flatten, Recording.Units;
    forall k | 0 <= k < |units|
      ensures units[k].Fits() && units[k].duration * rate <= 2048 * rec.config.timescale
    {
      assert units[k] in units;
    }
  }

  /** Each sample of the written file passes every check. */
  lemma SamplePlayable(rec: Recording, rate: nat, bytes: seq<Byte>, samples: seq<Sample>, mdats: seq<Box>, end: nat,
      k: nat)
    requires rec.Accepted(rate) && Matches(bytes, samples, rec.Units()) && Ascends(samples, 0, end) && k < |samples|
    requires forall s | s in samples :: Within(s, mdats)
    ensures Playable(samples, k, Rules(rec.config.timescale, rate, mdats, rec.first))
  {
    var units, s := rec.Units(), samples[k];
    hide Recording.Fits, Recording.Accepted, Recording.Units, Within, Duration, UnitTime, Payload;
    UnitsGood(rec, rate);
    assert units[k].Fits();
    SameTime(bytes, samples, units, k + 1);
    TimeRises(units, k + 1);
    assert s in samples;
  }

  lemma FoundTime(rec: Recording, bytes: seq<Byte>, top: seq<Box>, samples: seq<Sample>, n: nat)
    requires |top| == 2 + 2 * |rec.groups| && n <= |rec.groups| && Found(rec, bytes, top, samples, n)
    ensures rec.first + Duration(samples) == rec.TimeOf(n)
  {
    hide Duration, UnitTime, Flatten;
    var units := Flatten(rec.Lists()[..n]);
    SameTime(bytes, samples, units, |samples|);
    assert samples[..|samples|] == samples && units[..|units|] == units;
  }

  lemma ClockRuns(rec: Recording, bytes: seq<Byte>, top: seq<Box>, fragments: seq<Fragment>)
    requires Laid(rec, bytes, top) && rec.Fits() && |top| == 2 + 2 * |rec.groups| && 0 < |rec.groups| == |fragments|
    requires AllAddressed(fragments) && forall n: nat | n <= |rec.groups| :: FileSamples(fragments, n) == Placed(rec, n)
    requires forall n: nat | n < |fragments| :: fragments[n].time == rec.TimeOf(n)
    ensures ClockContinues(fragments) && fragments[0].time == rec.first
  {
    assert rec.TimeOf(0) == rec.first;
    hide Laid, Recording.Fits, Recording.TimeOf, Found, FileSamples, Placed, Duration;
    forall k: nat | k < |fragments|
      ensures fragments[k].time == rec.first + Duration(FileSamples(fragments, k))
    {
      AllFound(rec, bytes, top, k);
      FoundTime(rec, bytes, top, Placed(rec, k), k);
    }
  }

  lemma FragmentTimes(rec: Recording)
    requires rec.Fits()
    ensures forall n: nat | n < |rec.groups| :: FragmentsOf(rec)[n].time == rec.TimeOf(n)
  {
    hide Recording.Fits, Recording.TimeOf;
  }

  lemma OutputHeard(bytes: seq<Byte>, samples: seq<Sample>, units: seq<Unit>, timescale: nat)
    requires timescale > 0 && Matches(bytes, samples, units)
    ensures Output(bytes, samples, timescale) == Heard(units, timescale)
  {
    hide Payload, Duration, UnitTime, Micros;
    forall k | 0 <= k < |samples|
      ensures Duration(samples[..k]) == UnitTime(units[..k])
    {
      SameTime(bytes, samples, units, k);
    }
  }

  /** What the decoded movie says of its samples. */
  lemma MovieSamples(rec: Recording, rate: nat, bytes: seq<Byte>, top: seq<Box>, movie: Movie)
    requires Laid(rec, bytes, top) && rec.Fits() && rec.Accepted(rate) && |top| == 2 + 2 * |rec.groups|
    requires movie == Movie(top, rec.config.Track(), FragmentsOf(rec))
    ensures AllAddressed(movie.fragments) && ClockContinues(movie.fragments)
              && Samples(movie) == Placed(rec, |rec.groups|)
    ensures RulesOf(movie, rate) == Rules(rec.config.timescale, rate, EveryOther(top, 1, |rec.groups|), rec.first)
  {
    assert 0 < |rec.groups|;
    hide Recording.Fits, Recording.Accepted, Laid, Placed, FileSamples, ClockContinues, FragmentAt, EveryOther, Select;
    AllPlaced(rec, rate);
    FragmentTimes(rec);
    ClockRuns(rec, bytes, top, movie.fragments);
    FragmentBoxesSelected(rec, bytes, top);
  }

  lemma UnitsExist(rec: Recording)
    requires rec.Fits()
    ensures rec.Units() != []
  {
    var g := rec.groups[0];
    assert g.Fits() && g.runs[0].Fits();
    assert Flatten(g.Lists()) == g.Lists()[0] + Flatten(g.Lists()[1..]);
    assert Flatten(rec.Lists()) == rec.Lists()[0] + Flatten(rec.Lists()[1..]);
  }

  lemma SamplesFound(rec: Recording, bytes: seq<Byte>, top: seq<Box>, samples: seq<Sample>)
    requires Laid(rec, bytes, top) && rec.Fits() && |top| == 2 + 2 * |rec.groups|
               && samples == Placed(rec, |rec.groups|)
    ensures Matches(bytes, samples, rec.Units()) && |samples| == |rec.Units()| > 0
    ensures Ascends(samples, 0, top[1 + 2 * |rec.groups|].end)
    ensures forall s | s in samples :: Within(s, EveryOther(top, 1, |rec.groups|))
  {
    hide Recording.Fits, Laid, Ascends, Placed, EveryOther, Within, Flatten, Payload;
    AllFound(rec, bytes, top, |rec.groups|);
    assert rec.Lists()[..|rec.groups|] == rec.Lists();
    UnitsExist(rec);
  }

  /** The samples of the written file are all playable. */
  lemma AllPlayable(rec: Recording, rate: nat, bytes: seq<Byte>, top: seq<Box>, samples: seq<Sample>)
    requires Laid(rec, bytes, top) && rec.Fits() && rec.Accepted(rate) && |top| == 2 + 2 * |rec.groups|
    requires samples == Placed(rec, |rec.groups|)
    ensures Matches(bytes, samples, rec.Units()) && samples != []
    ensures PlayableFrom(samples, 0, Rules(rec.config.timescale, rate, EveryOther(top, 1, |rec.groups|), rec.first))
  {
    var count := |rec.groups|;
    assert |rec.Units()| <= MAX_SAMPLES;
    hide Recording.Fits, Recording.Accepted, Laid, Matches, Ascends, Placed, EveryOther, Playable, Within;
    hide Recording.Units;
    SamplesFound(rec, bytes, top, samples);
    forall k: nat | k < |samples|
      ensures Playable(samples, k, Rules(rec.config.timescale, rate, EveryOther(top, 1, count), rec.first))
    {
      SamplePlayable(rec, rate, bytes, samples, EveryOther(top, 1, count), top[1 + 2 * count].end, k);
    }
  }

  /** Every recording, however it is written, is accepted if the file has at most 8 MiB, and the extractor
      gives back its configuration and exactly its units, each at the exact time of all units before it. */
  lemma WrittenFileExtracted(rec: Recording, rate: nat, bytes: seq<Byte>)
    requires rec.Accepted(rate) && bytes == File(rec) && |bytes| <= 8388608
    ensures Decode(bytes, rate).Ok? && Acceptable(Decode(bytes, rate).value, rate)
    ensures var movie := Decode(bytes, rate).value;
            movie.track == rec.config.Track() && rec.config.timescale > 0
            && Output(bytes, Samples(movie), rec.config.timescale) == Heard(rec.Units(), rec.config.timescale)
  {
    var top := Places(Items(rec), 0);
    assert Laid(rec, bytes, top) && rec.Fits() && rec.config.timescale > 0;
    hide Laid, Recording.Fits, Recording.Accepted, Items, Places, File, Decode, Matches, Placed, Samples, PlayableFrom;
    hide Output;
    hide Heard, ClockContinues, FragmentsOf, EveryOther, RulesOf, Recording.Units;
    FileDecoded(rec, rate, bytes, top);
    var movie := Decode(bytes, rate).value;
    MovieSamples(rec, rate, bytes, top, movie);
    AllPlayable(rec, rate, bytes, top, Samples(movie));
    OutputHeard(bytes, Samples(movie), rec.Units(), rec.config.timescale);
  }
}
