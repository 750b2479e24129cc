/** A concrete file, byte for byte: the smallest recording of one access unit, as the writer writes it and the
    extractor accepts it. */
module AacSmallest {
  import opened Common
  import opened Bytes
  import opened Mp4Boxes
  import opened AacTrack
  import opened AacFragments
  import opened AacFormat
  import opened AacPrinted
  import opened AacMovie
  import opened AacTables
  import opened AacTheorems
  import opened AacRoundTrip

  // ------------------------------------------------------------------ the bytes

  /** A box of less than 64 KiB. */
  function Framed(size: nat, kind: seq<Byte>, payload: seq<Byte>): seq<Byte>
    requires size < 65536
  {
    [0, 0, size / 256, size % 256] + (kind + payload)
  }

  function Nothing(n: nat): seq<Byte> {
    seq(n, _ => 0)
  }

  /** A track fragment whose only run starts at this offset. */
  function TrafBody(offset: seq<Byte>): seq<Byte> {
    Framed(16, [0x74, 0x66, 0x68, 0x64], [0, 0, 0, 0, 0, 0, 0, 1])
    + (Framed(16, [0x74, 0x66, 0x64, 0x74], [0, 0, 0, 0, 0, 0, 0, 0])
       + Framed(20, [0x74, 0x72, 0x75, 0x6E], [0, 0, 0, 1, 0, 0, 0, 1] + offset))
  }

  const ESDS_BODY: seq<Byte> :=
    [0, 0, 0, 0] + ([3, 22, 0, 1, 0] + [4, 17, 0x40, 0x15, 0, 0, 0, 0, 0, 0, 0, 0, 0, 0, 0, 5, 2, 0x11, 0x88])
  const MP4A_BODY: seq<Byte> := Nothing(28) + Framed(36, [0x65, 0x73, 0x64, 0x73], ESDS_BODY)
  const STSD_BODY: seq<Byte> := [0, 0, 0, 0, 0, 0, 0, 1] + Framed(72, [0x6D, 0x70, 0x34, 0x61], MP4A_BODY)
  const STBL_BODY: seq<Byte> := Framed(88, [0x73, 0x74, 0x73, 0x64], STSD_BODY)
  const MINF_BODY: seq<Byte> := Framed(96, [0x73, 0x74, 0x62, 0x6C], STBL_BODY)
  const MDHD_BODY: seq<Byte> := Nothing(12) + ([0, 0, 0xBB, 0x80] + Nothing(8))
  const HDLR_BODY: seq<Byte> := Nothing(8) + ([0x73, 0x6F, 0x75, 0x6E] + Nothing(12))
  const MDIA_BODY: seq<Byte> :=
    Framed(32, [0x6D, 0x64, 0x68, 0x64], MDHD_BODY)
    + (Framed(32, [0x68, 0x64, 0x6C, 0x72], HDLR_BODY) + Framed(104, [0x6D, 0x69, 0x6E, 0x66], MINF_BODY))
  const TKHD_BODY: seq<Byte> := Nothing(12) + ([0, 0, 0, 1] + Nothing(8))
  const TRAK_BODY: seq<Byte> :=
    Framed(32, [0x74, 0x6B, 0x68, 0x64], TKHD_BODY) + Framed(176, [0x6D, 0x64, 0x69, 0x61], MDIA_BODY)
  const TREX_BODY: seq<Byte> :=
    [0, 0, 0, 0, 0, 0, 0, 1, 0, 0, 0, 1, 0, 0, 4, 0, 0, 0, 0, 1, 0, 0, 0, 0]
  const MVEX_BODY: seq<Byte> := Framed(32, [0x74, 0x72, 0x65, 0x78], TREX_BODY)
  const MOOV_BODY: seq<Byte> :=
    Framed(216, [0x74, 0x72, 0x61, 0x6B], TRAK_BODY) + Framed(40, [0x6D, 0x76, 0x65, 0x78], MVEX_BODY)
  const TRAF_BODY: seq<Byte> := TrafBody([0, 0, 0, 92])
  const MOOF_BODY: seq<Byte> :=
    Framed(16, [0x6D, 0x66, 0x68, 0x64], Nothing(8)) + Framed(60, [0x74, 0x72, 0x61, 0x66], TRAF_BODY)
  const SMALLEST: seq<Byte> :=
    Framed(16, [0x66, 0x74, 0x79, 0x70], Nothing(8))
    + (Framed(264, [0x6D, 0x6F, 0x6F, 0x76], MOOV_BODY)
       + (Framed(84, [0x6D, 0x6F, 0x6F, 0x66], MOOF_BODY) + Framed(9, [0x6D, 0x64, 0x61, 0x74], [0xAC])))

  // -------------------------------------------------------------- the recording

  /** One unit of one byte. */
  function Smallest(): Recording {
    var run := RunPlan(0, 1, 0, 0, [Unit([0xAC], 1024)]);
    Recording(Mono(), 0, [Group(HeaderFields(0, 0, 1, 0, 1, 0, 0, 0, []), 0, Compact, [run])])
  }

  function Mono(): Config {
    Config(1, 48000, FourCC("soun"), [0x11, 0x88], 1024, 1, 1, 1, Versions(0, 0, 0, 0, 0, 1, 0),
        Nest(3, 4, 5, 0, 0x40, 0x15, 1))
  }

  function OnlyGroup(): Group {
    Smallest().groups[0]
  }

  lemma SmallestUnits(rec: Recording)
    requires rec == Smallest()
    ensures rec.Units() == [Unit([0xAC], 1024)] && rec.groups[0].Units() == rec.Units()
    ensures rec.TimeOf(0) == 0 && rec.TimeOf(1) == 1024
  {
    var u := Unit([0xAC], 1024);
    var g := rec.groups[0];
    assert g.Lists() == [[u]] && [[u]][1..] == [];
    assert g.Units() == [u];
    assert rec.Lists() == [[u]] && rec.Lists()[..0] == [] && rec.Lists()[..1] == rec.Lists();
    assert UnitTime([u]) == 1024 by { assert [u][..0] == []; }
    assert UnitTime([]) == 0;
  }

  lemma SmallestFits(rec: Recording)
    requires rec == Smallest()
    ensures rec.Fits()
  {
    SmallestUnits(rec);
    hide Has;
    assert rec.groups[0].runs[0].units[0].Fits();
    assert rec.groups[0].runs[0].Fits();
    assert rec.groups[0].Fits() && rec.ClockOf(0).Fits();
    assert rec.config.Fits();
  }

  lemma MonoAccepted()
    ensures Mono().Accepted(48000)
  {
  }

  lemma OnlyGroupAccepted()
    ensures OnlyGroup().Accepted(Mono().Track())
  {
    FlagsAllowed();
    hide Has;
  }

  lemma FlagsAllowed()
    ensures !Has(0, 0xFDFFC4) && !Has(1, 0xFFF0FA) && Has(1, 1) && !Has(0, 1) && !Has(0, 2) && !Has(0, 8) && !Has(0, 16)
    ensures !Has(1, 0x100) && !Has(1, 0x200)
  {
  }

  lemma SmallestAccepted(rec: Recording)
    requires rec == Smallest()
    ensures rec.Accepted(48000)
  {
    MonoAccepted();
    OnlyGroupAccepted();
    SmallestFits(rec);
    SmallestUnits(rec);
    hide Has, Recording.Fits, Config.Accepted, Group.Accepted, Recording.Units, Recording.TimeOf, Config.Track;
    hide Recording.Accepted;
    AcceptedWhole(rec, Unit([0xAC], 1024));
  }

  lemma AcceptedWhole(rec: Recording, u: Unit)
    requires rec.Fits() && |rec.groups| == 1 && rec.config.Accepted(48000)
    requires rec.groups[0].Accepted(rec.config.Track()) && rec.Units() == [u] && rec.TimeOf(1) == 1024
    requires u.duration == 1024 && rec.config.timescale == 48000
    ensures rec.Accepted(48000)
  {
    hide Has, Recording.Fits, Config.Accepted, Group.Accepted, Recording.Units, Recording.TimeOf, Config.Track;
  }

  // ------------------------------------------------------------ how it is written

  predicate Plain(item: Item, size: nat) {
    item.form == Compact && |item.kind| == 4 && size == 8 + |item.payload| < 65536
  }

  lemma FramedIs(item: Item, size: nat)
    requires Plain(item, size)
    ensures PackOne(item) == Framed(size, item.kind, item.payload)
  {
    assert [] + item.payload == item.payload;
  }

  lemma WrittenOne(a: Item, m: nat)
    requires Plain(a, m)
    ensures Writable([a]) && Pack([a]) == Framed(m, a.kind, a.payload)
  {
    hide PackOne, Framed;
    FramedIs(a, m);
    PackStep([a]);
    assert [a][1..] == [] && PackOne(a) + [] == PackOne(a);
  }

  lemma WrittenTwo(a: Item, b: Item, m: nat, n: nat)
    requires Plain(a, m) && Plain(b, n)
    ensures Writable([a, b]) && Pack([a, b]) == Framed(m, a.kind, a.payload) + Framed(n, b.kind, b.payload)
  {
    hide PackOne, Framed;
    FramedIs(a, m);
    PackStep([a, b]);
    assert [a, b][1..] == [b];
    WrittenOne(b, n);
  }

  lemma WrittenThree(a: Item, b: Item, c: Item, m: nat, n: nat, o: nat)
    requires Plain(a, m) && Plain(b, n) && Plain(c, o)
    ensures Writable([a, b, c])
    ensures Pack([a, b, c])
         == Framed(m, a.kind, a.payload) + (Framed(n, b.kind, b.payload) + Framed(o, c.kind, c.payload))
  {
    hide PackOne, Framed;
    FramedIs(a, m);
    PackStep([a, b, c]);
    assert [a, b, c][1..] == [b, c];
    WrittenTwo(b, c, n, o);
  }

  /** The zeros of the writer are zeros. */
  lemma ZerosAre(n: nat)
    ensures Zeros(n) == Nothing(n)
  {
  }

  lemma DecoderWritten()
    ensures Mono().Fits()
    ensures Decoder(Mono()) == [4, 17, 0x40, 0x15, 0, 0, 0, 0, 0, 0, 0, 0, 0, 0, 0, 5, 2, 0x11, 0x88]
  {
    assert Specific(Mono()) == [5, 2, 0x11, 0x88];
    assert Zeros(11) == [0, 0, 0, 0, 0, 0, 0, 0, 0, 0, 0];
  }

  lemma EsdsWritten()
    ensures Mono().Fits() && Esds(Mono()) == ESDS_BODY && |ESDS_BODY| == 28
  {
    DecoderWritten();
    hide Decoder;
    assert Stream(Mono()) == [3, 22, 0, 1, 0] + Decoder(Mono());
    assert Print32(0) == [0, 0, 0, 0];
  }

  lemma Mp4aWritten()
    ensures Mono().Fits() && Mp4a(Mono()) == MP4A_BODY && |MP4A_BODY| == 64
  {
    var c := Mono();
    EsdsWritten();
    MovieTypes();
    hide ESDS_BODY, Esds, FourCC;
    WrittenOne(Named("esds", Esds(c)), 36);
    var inner := Framed(36, [0x65, 0x73, 0x64, 0x73], ESDS_BODY);
    assert Zeros(8) + (Print32(0) + (Zeros(16) + inner)) == Nothing(28) + inner;
  }

  lemma StsdWritten()
    ensures Mono().Fits() && Stsd(Mono()) == STSD_BODY && |STSD_BODY| == 80
  {
    var c := Mono();
    Mp4aWritten();
    MovieTypes();
    hide MP4A_BODY, Mp4a, FourCC;
    WrittenOne(Named("mp4a", Mp4a(c)), 72);
    var inner := Framed(72, [0x6D, 0x70, 0x34, 0x61], MP4A_BODY);
    assert Print32(0) + (Print32(1) + inner) == [0, 0, 0, 0, 0, 0, 0, 1] + inner;
  }

  lemma MinfWritten()
    ensures Mono().Fits() && Pack([Named("stsd", Stsd(Mono()))]) == STBL_BODY && |STBL_BODY| == 88
    ensures Pack([Named("stbl", Pack([Named("stsd", Stsd(Mono()))]))]) == MINF_BODY && |MINF_BODY| == 96
  {
    StsdWritten();
    MovieTypes();
    hide STSD_BODY, Stsd, FourCC, Pack;
    WrittenOne(Named("stsd", Stsd(Mono())), 88);
    WrittenOne(Named("stbl", Pack([Named("stsd", Stsd(Mono()))])), 96);
  }

  lemma VersionedWritten(value: nat, word: seq<Byte>)
    requires value < 0x1_0000_0000 && Print32(value) == word
    ensures Versioned(0, value) == Nothing(12) + (word + Nothing(8))
    ensures |Nothing(12) + (word + Nothing(8))| == 24
  {
    var rest := word + Nothing(8);
    assert Print32(0) == Nothing(4) && Zeros(8) == Nothing(8);
    assert Nothing(4) + (Nothing(8) + rest) == Nothing(12) + rest;
  }

  lemma MediaWritten()
    ensures Mono().Fits() && Writable(MediaItems(Mono())) && Pack(MediaItems(Mono())) == MDIA_BODY
    ensures |MDIA_BODY| == 168
  {
    var c := Mono();
    MinfWritten();
    MovieTypes();
    assert Print32(48000) == [0, 0, 0xBB, 0x80];
    VersionedWritten(48000, [0, 0, 0xBB, 0x80]);
    assert Zeros(8) == Nothing(8) && Zeros(12) == Nothing(12);
    assert Handler(c) == HDLR_BODY && |HDLR_BODY| == 24;
    hide MINF_BODY, Stsd, FourCC, Pack, Versioned, Handler, HDLR_BODY, Framed, Nothing, Print32;
    var minf := Named("minf", Pack([Named("stbl", Pack([Named("stsd", Stsd(c))]))]));
    WrittenThree(Named("mdhd", Versioned(0, 48000)), Named("hdlr", Handler(c)), minf, 32, 32, 104);
    FramedSize(32, MDHD, MDHD_BODY);
    FramedSize(32, HDLR, HDLR_BODY);
    FramedSize(104, MINF, MINF_BODY);
  }

  lemma FramedSize(size: nat, kind: seq<Byte>, payload: seq<Byte>)
    requires size < 65536
    ensures |Framed(size, kind, payload)| == 4 + |kind| + |payload|
  {
  }

  lemma TrakWritten()
    ensures Mono().Fits() && Writable(TrackItems(Mono())) && Pack(TrackItems(Mono())) == TRAK_BODY
    ensures |TRAK_BODY| == 208
  {
    var c := Mono();
    MediaWritten();
    MovieTypes();
    assert Print32(1) == [0, 0, 0, 1];
    VersionedWritten(1, [0, 0, 0, 1]);
    hide MDIA_BODY, FourCC, Pack, Versioned, Framed, Nothing, Print32, MediaItems;
    WrittenTwo(Named("tkhd", Versioned(0, 1)), Named("mdia", Pack(MediaItems(c))), 32, 176);
    FramedSize(32, TKHD, TKHD_BODY);
    FramedSize(176, MDIA, MDIA_BODY);
  }

  lemma TrexWritten()
    ensures Mono().Fits() && Trex(Mono()) == TREX_BODY && |TREX_BODY| == 24
  {
    assert Print32(0) == [0, 0, 0, 0] && Print32(1) == [0, 0, 0, 1] && Print32(1024) == [0, 0, 4, 0];
    assert Zeros(4) == [0, 0, 0, 0];
  }

  lemma MoovWritten()
    ensures Mono().Fits() && MoviePayload(Mono()) == MOOV_BODY && |MOOV_BODY| == 256
  {
    var c := Mono();
    TrakWritten();
    TrexWritten();
    MovieTypes();
    MovieWritable(c);
    hide TRAK_BODY, TREX_BODY, FourCC, Pack, Framed, TrackItems, Trex;
    WrittenOne(Named("trex", Trex(c)), 32);
    FramedSize(32, TREX, TREX_BODY);
    WrittenTwo(Named("trak", Pack(TrackItems(c))), Named("mvex", Pack([Named("trex", Trex(c))])), 216, 40);
    FramedSize(216, TRAK, TRAK_BODY);
    FramedSize(40, MVEX, MVEX_BODY);
  }

  lemma HeaderWritten()
    ensures OnlyGroup().header.Fits() && OnlyGroup().header.Print() == [0, 0, 0, 0, 0, 0, 0, 1]
  {
    var h := OnlyGroup().header;
    assert h.Rest() == [];
    assert Print32(0) == [0, 0, 0, 0] && Print32(1) == [0, 0, 0, 1];
    assert [0, 0, 0, 0] + ([0, 0, 0, 1] + []) == [0, 0, 0, 0, 0, 0, 0, 1];
  }

  lemma ClockWritten()
    ensures ClockFields(0, 0, 0, []).Fits() && ClockFields(0, 0, 0, []).Print() == [0, 0, 0, 0, 0, 0, 0, 0]
  {
    assert Print32(0) == [0, 0, 0, 0];
  }

  lemma RunWritten(base: int, data: int, offset: seq<Byte>)
    requires 0 <= data - base < 0x1_0000_0000 && Print32(data - base) == offset
    ensures OnlyGroup().Fits()
    ensures OnlyGroup().RunAt(0, base, data).Print() == [0, 0, 0, 1, 0, 0, 0, 1] + offset
  {
    SmallestFits(Smallest());
    var g := OnlyGroup();
    assert g.UnitsBefore(0) == [] && DataOf([]) == [];
    var r := g.RunAt(0, base, data);
    assert r.offset == data - base && r.flags == 1 && |r.rows| == 1;
    NoColumns(r.rows);
    assert Print32(1) == [0, 0, 0, 1];
    FlagOne();
    hide Rows, Has, Print32;
    assert [0, 0, 0, 1] + ([0, 0, 0, 1] + (offset + ([] + ([] + [])))) == [0, 0, 0, 1, 0, 0, 0, 1] + offset;
  }

  lemma FlagOne()
    ensures Has(1, 1) && !Has(1, 4) && !Has(1, 0x100) && !Has(1, 0x200) && !Has(1, 0x400) && !Has(1, 0x800)
  {
  }

  lemma NoColumns(rows: seq<Row>)
    requires RowsFit(rows) && |rows| == 1
    ensures Rows(1, rows) == []
  {
    FlagOne();
    hide Has;
    assert rows[1..] == [] && RowBytes(1, rows[0]) == [];
  }

  lemma TrafWritten(base: int, data: int, offset: seq<Byte>)
    requires 0 <= data - base < 0x1_0000_0000 && Print32(data - base) == offset
    ensures var g, clock := OnlyGroup(), ClockFields(0, 0, 0, []);
            && g.Fits() && clock.Fits() && Pack(TrafItems(g, clock, base, data)) == TrafBody(offset)
            && |TrafBody(offset)| == 52
  {
    var g, clock := OnlyGroup(), ClockFields(0, 0, 0, []);
    HeaderWritten();
    ClockWritten();
    RunWritten(base, data, offset);
    FragmentTypes();
    assert |g.runs| == 1;
    var items := TrafItems(g, clock, base, data);
    hide FourCC, Pack, Framed, HeaderFields.Print, ClockFields.Print, RunFields.Print, Group.Fits, Group.RunAt;
    hide OnlyGroup, Smallest, Print32;
    var a, b, c := Named("tfhd", g.header.Print()), Named("tfdt", clock.Print()),
        Named("trun", g.RunAt(0, base, data).Print());
    assert items == [a, b, c];
    WrittenThree(a, b, c, 16, 16, 20);
    FramedSize(16, TFHD, [0, 0, 0, 0, 0, 0, 0, 1]);
    FramedSize(16, TFDT, [0, 0, 0, 0, 0, 0, 0, 0]);
    FramedSize(20, TRUN, [0, 0, 0, 1, 0, 0, 0, 1] + offset);
  }

  lemma MoofWritten(base: int, data: int, offset: seq<Byte>)
    requires 0 <= data - base < 0x1_0000_0000 && Print32(data - base) == offset
    ensures var g, clock := OnlyGroup(), ClockFields(0, 0, 0, []);
            && g.Fits() && clock.Fits() && |Pack(MoofItems(g, clock, base, data))| == 76
            && Pack(MoofItems(g, clock, base, data))
               == Framed(16, [0x6D, 0x66, 0x68, 0x64], Nothing(8)) + Framed(60, TRAF, TrafBody(offset))
  {
    var g, clock := OnlyGroup(), ClockFields(0, 0, 0, []);
    TrafWritten(base, data, offset);
    FragmentTypes();
    MfhdType();
    ZerosAre(8);
    hide FourCC, Pack, Framed, TrafBody, TrafItems, Group.Fits, ClockFields.Fits, OnlyGroup, Zeros, Print32;
    WrittenTwo(Named("mfhd", Zeros(8)), Named("traf", Pack(TrafItems(g, clock, base, data))), 16, 60);
    FramedSize(16, [0x6D, 0x66, 0x68, 0x64], Nothing(8));
    FramedSize(60, TRAF, TrafBody(offset));
  }

  lemma MfhdType()
    ensures FourCC("mfhd") == [0x6D, 0x66, 0x68, 0x64]
  {
  }

  /** What is used of the recording. */
  ghost predicate Shaped(rec: Recording) {
    && rec.Fits() && |rec.groups| == 1 && rec.config == Mono() && rec.groups[0] == OnlyGroup()
    && rec.ClockOf(0) == ClockFields(0, 0, 0, []) && rec.groups[0].Units() == [Unit([0xAC], 1024)]
  }

  lemma SmallestShaped()
    ensures Shaped(Smallest())
  {
    SmallestFits(Smallest());
    SmallestUnits(Smallest());
    hide Recording.Fits;
  }

  lemma OffsetsOfSmallest(rec: Recording)
    requires rec.Fits() && Shaped(rec)
    ensures MoofStart(rec, 0) == 280 && DataStart(rec, 0) == 372 && BaseOf(rec, 0) == 280
  {
    MoovWritten();
    assert Print32(0) == [0, 0, 0, 0];
    MoofWritten(0, 0, [0, 0, 0, 0]);
    NoBase();
    hide Has, MoviePayload, MoofItems, Pack, Recording.Fits, Group.Fits, ClockFields.Fits, MOOV_BODY, Framed, TrafBody;
    hide Print32, Smallest, Mono, Recording.TimeOf;
  }

  lemma NoBase()
    ensures OnlyGroup().header.flags == 0 && !Has(0, 1) && OnlyGroup().form == Compact
  {
  }

  lemma MoofOfSmallest(rec: Recording)
    requires rec.Fits() && Shaped(rec)
    ensures MoofPayload(rec, 0) == MOOF_BODY && |MOOF_BODY| == 76
  {
    OffsetsOfSmallest(rec);
    assert Print32(92) == [0, 0, 0, 92];
    MoofWritten(280, 372, [0, 0, 0, 92]);
    hide MoviePayload, MoofItems, Pack, Recording.Fits, Group.Fits, ClockFields.Fits, MOOV_BODY, Framed, TrafBody;
    hide Print32, Smallest, OnlyGroup, Mono, MoofStart, DataStart, BaseOf, Recording.TimeOf;
  }

  /** The four boxes of the file. */
  lemma BoxesOfSmallest(rec: Recording)
    requires rec.Fits() && Shaped(rec)
    ensures var items := Items(rec);
            && items[0] == Item(Compact, FTYP, Nothing(8)) && items[1] == Item(Compact, MOOV, MOOV_BODY)
            && items[2] == Item(Compact, MOOF, MOOF_BODY) && items[3] == Item(Compact, MDATA, [0xAC])
  {
    MoofOfSmallest(rec);
    MoovWritten();
    FragmentTypes();
    MovieTypes();
    ZerosAre(8);
    NoBase();
    assert DataOf([Unit([0xAC], 1024)]) == [0xAC] by { assert [Unit([0xAC], 1024)][..0] == []; }
    hide Recording.Fits, FourCC, DataOf, MoofPayload, MoviePayload, MOOV_BODY, MOOF_BODY, Framed, Pack, PackOne;
    hide Smallest, Mono, Zeros, OnlyGroup, Group.Units, Recording.ClockOf;
    GroupPayloads(rec, 0);
    KindAt(rec, 0);
    KindAt(rec, 1);
    KindAt(rec, 2);
    KindAt(rec, 3);
  }

  lemma FileWritten(rec: Recording)
    requires rec.Fits() && Shaped(rec)
    ensures File(rec) == SMALLEST && |SMALLEST| == 373
  {
    MoofOfSmallest(rec);
    MoovWritten();
    BoxesOfSmallest(rec);
    hide Recording.Fits, ItemAt, FourCC, MoofPayload, MoviePayload, MOOV_BODY, MOOF_BODY, Framed, Pack, Shaped;
    FourWritten(Items(rec));
    FramedSize(16, FTYP, Nothing(8));
    FramedSize(264, MOOV, MOOV_BODY);
    FramedSize(84, MOOF, MOOF_BODY);
    FramedSize(9, MDATA, [0xAC]);
  }

  lemma FourWritten(items: seq<Item>)
    requires |items| == 4 && Plain(items[0], 16) && Plain(items[1], 264) && Plain(items[2], 84) && Plain(items[3], 9)
    requires Writable(items)
    ensures Pack(items)
         == Framed(16, items[0].kind, items[0].payload)
            + (Framed(264, items[1].kind, items[1].payload)
               + (Framed(84, items[2].kind, items[2].payload) + Framed(9, items[3].kind, items[3].payload)))
  {
    hide PackOne, Framed;
    FramedIs(items[0], 16);
    PackStep(items);
    assert items[1..] == [items[1], items[2], items[3]];
    WrittenThree(items[1], items[2], items[3], 264, 84, 9);
  }

  lemma UnitHeard()
    ensures Heard([Unit([0xAC], 1024)], 48000) == [AacSample([0xAC], 0, true)]
  {
    assert [Unit([0xAC], 1024)][..0] == [];
  }

  lemma TrackOfSmallest()
    ensures Smallest().config.Track() == Track(1, 48000, [0x11, 0x88], 1024, 1)
    ensures Smallest().config.timescale == 48000
  {
  }

  /** What is used of the recording, and what should be heard. */
  lemma SmallestRecording() returns (rec: Recording)
    ensures rec.Accepted(48000) && rec.Fits() && Shaped(rec)
    ensures rec.config.timescale == 48000 && rec.config.Track() == Track(1, 48000, [0x11, 0x88], 1024, 1)
    ensures Heard(rec.Units(), 48000) == [AacSample([0xAC], 0, true)]
  {
    hide Recording.Accepted, Recording.Fits, Heard, Shaped, Config.Track, Recording.Units;
    rec := Smallest();
    SmallestAccepted(rec);
    SmallestFits(rec);
    SmallestShaped();
    SmallestUnits(rec);
    UnitHeard();
    TrackOfSmallest();
  }

  /** These 373 bytes are accepted: one unit of one byte at time 0, and its track. */
  lemma SomethingIsAccepted() returns (movie: Movie)
    ensures |SMALLEST| == 373 && Accepted(SMALLEST, 48000, movie)
    ensures movie.track == Track(1, 48000, [0x11, 0x88], 1024, 1)
    ensures Output(SMALLEST, Samples(movie), 48000) == [AacSample([0xAC], 0, true)]
  {
    hide Smallest, SMALLEST, Recording.Fits, Recording.Accepted, File, Decode, Acceptable, Recording.Units, Heard;
    hide Output, Shaped, Config.Track, Samples;
    var rec := SmallestRecording();
    FileWritten(rec);
    WrittenFileExtracted(rec, 48000, SMALLEST);
    movie := Decode(SMALLEST, 48000).value;
  }
}
