/** The format `extractAac` demands, said of the bytes themselves: which box types, fields and values stand where.
    The extractor's reading of a movie box and of a fragment is shown to be this format, on every byte string. */
module AacFormat {
  import opened Common
  import opened Bytes
  import opened Mp4Boxes
  import opened AacTrack
  import opened AacFragments
  import opened AacPrinted
  import opened AacTables

  // ------------------------------------------------------------------- types

  const FTYP: Kind := [0x66, 0x74, 0x79, 0x70]
  const MOOV: Kind := [0x6D, 0x6F, 0x6F, 0x76]
  const TRAK: Kind := [0x74, 0x72, 0x61, 0x6B]
  const TKHD: Kind := [0x74, 0x6B, 0x68, 0x64]
  const MDIA: Kind := [0x6D, 0x64, 0x69, 0x61]
  const HDLR: Kind := [0x68, 0x64, 0x6C, 0x72]
  const SOUN: Kind := [0x73, 0x6F, 0x75, 0x6E]
  const MDHD: Kind := [0x6D, 0x64, 0x68, 0x64]
  const MINF: Kind := [0x6D, 0x69, 0x6E, 0x66]
  const STBL: Kind := [0x73, 0x74, 0x62, 0x6C]
  const STSD: Kind := [0x73, 0x74, 0x73, 0x64]
  const MP4A: Kind := [0x6D, 0x70, 0x34, 0x61]
  const ESDS: Kind := [0x65, 0x73, 0x64, 0x73]
  const MVEX: Kind := [0x6D, 0x76, 0x65, 0x78]
  const TREX: Kind := [0x74, 0x72, 0x65, 0x78]
  const MOOF: Kind := [0x6D, 0x6F, 0x6F, 0x66]
  const TRAF: Kind := [0x74, 0x72, 0x61, 0x66]
  const TFHD: Kind := [0x74, 0x66, 0x68, 0x64]
  const TFDT: Kind := [0x74, 0x66, 0x64, 0x74]
  const TRUN: Kind := [0x74, 0x72, 0x75, 0x6E]
  const SDTP: Kind := [0x73, 0x64, 0x74, 0x70]
  const MDATA: Kind := [0x6D, 0x64, 0x61, 0x74]

  /** The box types of the movie box, spelled out. */
  lemma MovieTypes()
    ensures FourCC("ftyp") == FTYP && FourCC("moov") == MOOV && FourCC("trak") == TRAK && FourCC("tkhd") == TKHD
    ensures FourCC("mdia") == MDIA && FourCC("hdlr") == HDLR && FourCC("soun") == SOUN && FourCC("mdhd") == MDHD
    ensures FourCC("minf") == MINF && FourCC("stbl") == STBL && FourCC("stsd") == STSD && FourCC("mp4a") == MP4A
    ensures FourCC("esds") == ESDS && FourCC("mvex") == MVEX && FourCC("trex") == TREX
  {
  }

  /** Those of the fragments. */
  lemma FragmentTypes()
    ensures FourCC("moof") == MOOF && FourCC("traf") == TRAF && FourCC("tfhd") == TFHD && FourCC("tfdt") == TFDT
    ensures FourCC("trun") == TRUN && FourCC("sdtp") == SDTP && FourCC("mdat") == MDATA && MDAT == MDATA
  {
  }

  // ------------------------------------------------------- numbers and boxes

  /** The number `n` stands at `at`, most significant byte first, and ends by `end`. */
  predicate NumberAt(bytes: seq<Byte>, at: nat, end: nat, n: nat) {
    && at + 4 <= end <= |bytes|
    && n == 16777216 * bytes[at] as int + 65536 * bytes[at + 1] as int + 256 * bytes[at + 2] as int
            + bytes[at + 3] as int
  }

  lemma U32Iff(bytes: seq<Byte>, at: nat, end: nat, n: nat)
    requires end <= |bytes|
    ensures U32(bytes, at, end) == Ok(n) <==> NumberAt(bytes, at, end, n)
  {
    if at + 4 <= end {
      var b := bytes[at..at + 4];
      assert b[0] == bytes[at] && b[1] == bytes[at + 1] && b[2] == bytes[at + 2] && b[3] == bytes[at + 3];
    }
  }

  /** The bytes from `at` to `end` are these boxes, one after the other, each in one of the three header forms. */
  ghost predicate Boxed(bytes: seq<Byte>, at: nat, end: nat, boxes: seq<Box>) {
    at <= end <= |bytes| && exists pieces :: Printable(pieces) && |pieces| <= 4096
                                             && PrintAll(pieces) == bytes[at..end] && Layout(pieces, at) == boxes
  }

  lemma BoxedIff(bytes: seq<Byte>, at: nat, end: nat, boxes: seq<Box>)
    requires at <= end <= |bytes|
    ensures ParseBoxes(bytes, at, end) == Ok(boxes) <==> Boxed(bytes, at, end, boxes)
  {
    hide BoxAt, Piece.Print, ParseBoxes, Tiles, Layout;
    if ParseBoxes(bytes, at, end) == Ok(boxes) {
      var pieces := ParseThenPrint(bytes, at, end, 0);
    }
    if pieces :| Printable(pieces) && |pieces| <= 4096 && PrintAll(pieces) == bytes[at..end]
                 && Layout(pieces, at) == boxes {
      PrintThenParse(pieces, bytes, at, end, 0);
    }
  }

  /** The box at `i` is the only one of its kind. */
  predicate SoleAt(boxes: seq<Box>, kind: Kind, box: Box, i: nat) {
    i < |boxes| && boxes[i] == box && box.kind == kind
    && forall j | 0 <= j < |boxes| && j != i :: boxes[j].kind != kind
  }

  /** `box` is the only one of its kind. */
  predicate Sole(boxes: seq<Box>, kind: Kind, box: Box) {
    exists i :: 0 <= i < |boxes| && SoleAt(boxes, kind, box, i)
  }

  lemma {:induction false} SelectNone(boxes: seq<Box>, kind: Kind)
    ensures Select(boxes, kind) == [] <==> forall j | 0 <= j < |boxes| :: boxes[j].kind != kind
  {
    if boxes != [] {
      SelectNone(boxes[1..], kind);
      assert forall j | 0 <= j < |boxes| - 1 :: boxes[1..][j] == boxes[j + 1];
    }
  }

  lemma {:induction false} SoleSelected(boxes: seq<Box>, kind: Kind, box: Box, i: nat)
    requires SoleAt(boxes, kind, box, i)
    ensures Select(boxes, kind) == [box]
    decreases i
  {
    if i == 0 {
      SelectNone(boxes[1..], kind);
      assert forall j | 0 <= j < |boxes| - 1 :: boxes[1..][j] == boxes[j + 1];
    } else {
      assert forall j | 0 <= j < |boxes| - 1 :: boxes[1..][j] == boxes[j + 1];
      SoleSelected(boxes[1..], kind, box, i - 1);
    }
  }

  lemma {:induction false} SelectedSole(boxes: seq<Box>, kind: Kind, box: Box) returns (i: nat)
    requires Select(boxes, kind) == [box]
    ensures SoleAt(boxes, kind, box, i)
  {
    assert boxes != [];
    assert forall j | 1 <= j < |boxes| :: boxes[j] == boxes[1..][j - 1];
    if boxes[0].kind == kind {
      SelectNone(boxes[1..], kind);
      i := 0;
    } else {
      i := SelectedSole(boxes[1..], kind, box);
      i := i + 1;
    }
  }

  /** A box is taken exactly if it is the only one of its kind; none and several are refused. */
  lemma OneIff(boxes: seq<Box>, kind: Kind, box: Box)
    ensures One(boxes, kind) == Ok(box) <==> Sole(boxes, kind, box)
  {
    hide Select, SoleAt;
    var selected := Select(boxes, kind);
    assert |selected| == 1 ==> selected == [selected[0]];
    if selected == [box] {
      var i := SelectedSole(boxes, kind, box);
    }
    if i: nat :| i < |boxes| && SoleAt(boxes, kind, box, i) {
      SoleSelected(boxes, kind, box, i);
    }
  }

  /** Among the boxes from `at` to `end`, `box` is the only one of its kind. */
  ghost predicate OnlyIn(bytes: seq<Byte>, at: nat, end: nat, kind: Kind, box: Box) {
    exists boxes :: Boxed(bytes, at, end, boxes) && Sole(boxes, kind, box)
  }

  lemma OnlyIff(bytes: seq<Byte>, at: nat, end: nat, kind: Kind, box: Box)
    requires at <= end <= |bytes|
    ensures ParseBoxes(bytes, at, end).Ok? && One(ParseBoxes(bytes, at, end).value, kind) == Ok(box) <==>
            OnlyIn(bytes, at, end, kind, box)
    ensures OnlyIn(bytes, at, end, kind, box) ==> Inside(box, end)
  {
    hide ParseBoxes, One, Boxed, Sole;
    if ParseBoxes(bytes, at, end).Ok? {
      var boxes := ParseBoxes(bytes, at, end).value;
      BoxedIff(bytes, at, end, boxes);
      OneIff(boxes, kind, box);
    }
    if boxes :| Boxed(bytes, at, end, boxes) && Sole(boxes, kind, box) {
      BoxedIff(bytes, at, end, boxes);
      OneIff(boxes, kind, box);
    }
  }

  // ------------------------------------------------------------ the movie box

  /** A box of version 0. */
  predicate VersionZero(bytes: seq<Byte>, box: Box) {
    box.data + 4 <= box.end <= |bytes| && bytes[box.data] == 0
  }

  lemma VersionIff(bytes: seq<Byte>, box: Box)
    requires Inside(box, |bytes|)
    ensures FullHeader(bytes, box).Ok? <==> box.data + 4 <= box.end
    ensures FullHeader(bytes, box).Ok? ==> FullHeader(bytes, box).value.version == bytes[box.data]
  {
    hide Be32;
    if box.data + 4 <= box.end {
      var n := U32(bytes, box.data, box.end).value;
      U32Iff(bytes, box.data, box.end, n);
      assert n / 16777216 == bytes[box.data];
    }
  }

  /** The field lies 12 bytes into a box of version 0, 20 bytes into one of version 1; there is no other version. */
  predicate VersionedAt(bytes: seq<Byte>, box: Box, n: nat) {
    && box.data + 4 <= box.end <= |bytes|
    && ((bytes[box.data] == 0 && NumberAt(bytes, box.data + 12, box.end, n))
        || (bytes[box.data] == 1 && NumberAt(bytes, box.data + 20, box.end, n)))
  }

  lemma VersionedIff(bytes: seq<Byte>, box: Box, n: nat)
    requires Inside(box, |bytes|)
    ensures VersionedField(bytes, box) == Ok(n) <==> VersionedAt(bytes, box, n)
  {
    hide U32, NumberAt;
    VersionIff(bytes, box);
    U32Iff(bytes, box.data + 12, box.end, n);
    U32Iff(bytes, box.data + 20, box.end, n);
  }

  /** The sampling frequency with this index (ISO/IEC 14496-3 section 1.6.3). */
  function Frequency(index: nat): Option<nat> {
    match index
    case 0 => Some(96000)
    case 1 => Some(88200)
    case 2 => Some(64000)
    case 3 => Some(48000)
    case 4 => Some(44100)
    case 5 => Some(32000)
    case 6 => Some(24000)
    case 7 => Some(22050)
    case 8 => Some(16000)
    case 9 => Some(12000)
    case 10 => Some(11025)
    case 11 => Some(8000)
    case 12 => Some(7350)
    case _ => None
  }

  /** Five bits of object type, four of frequency index, four of channels and the frame length bit, of 16 in all:
      AAC-LC, the requested rate, one channel, 1024 samples a frame. The last two bits are free. */
  ghost predicate ConfigBits(asc: seq<Byte>, rate: nat) {
    |asc| >= 2 && exists index: nat ::
      Frequency(index) == Some(rate)
      && 2 * 2048 + index * 128 + 1 * 8 <= 256 * asc[0] as int + asc[1] as int < 2 * 2048 + index * 128 + 1 * 8 + 4
  }

  lemma FrequencyIff(index: nat, rate: nat)
    ensures Frequency(index) == Some(rate) <==> index < |RATES| && RATES[index] == rate
  {
  }

  lemma FieldsOfConfig(a: nat, b: nat, index: nat)
    requires a < 256 && b < 256 && index < 16
    ensures a / 8 == 2 && a % 8 * 2 + b / 128 == index && b / 8 % 16 == 1 && b / 4 % 2 == 0 <==>
            4104 + index * 128 <= 256 * a + b < 4108 + index * 128
  {
    var half, odd := index / 2, index % 2;
    assert a / 8 == 2 && a % 8 * 2 + b / 128 == index <==> a == 16 + half && b / 128 == odd;
    assert b / 8 % 16 == 1 && b / 4 % 2 == 0 <==> 8 <= b % 128 < 12;
    assert b == b / 128 * 128 + b % 128;
  }

  lemma ConfigBitsIff(asc: seq<Byte>, rate: nat)
    requires |asc| >= 2
    ensures RequestedConfig(asc, rate) <==> ConfigBits(asc, rate)
  {
    var a, b := asc[0] as int, asc[1] as int;
    var index: nat := a % 8 * 2 + b / 128;
    hide RATES, Frequency;
    FieldsOfConfig(a, b, index);
    FrequencyIff(index, rate);
    if i: nat :| Frequency(i) == Some(rate) && 4104 + i * 128 <= 256 * a + b < 4108 + i * 128 {
      FrequencyIff(i, rate);
      RatesListed();
      FieldsOfConfig(a, b, i);
    }
  }

  lemma RatesListed()
    ensures |RATES| == 13
  {
  }

  /** The three descriptors around a configuration. */
  datatype Nesting = Nesting(stream: Descriptor, decoder: Descriptor, specific: Descriptor)

  ghost predicate DescriptorIn(bytes: seq<Byte>, at: nat, end: nat, d: Descriptor) {
    end <= |bytes| && exists digits :: DescriptorHeld(bytes, at, end, d, digits)
  }

  /** The configuration lies in a specific descriptor, in a decoder descriptor of MPEG-4 audio, in a stream
      descriptor without optional fields; anything may follow inside each of them. */
  ghost predicate ConfigHeld(bytes: seq<Byte>, esds: Box, rate: nat, asc: seq<Byte>, n: Nesting) {
    && VersionZero(bytes, esds)
    && DescriptorIn(bytes, esds.data + 4, esds.end, n.stream)
    && n.stream.tag == 3 && n.stream.data + 3 <= n.stream.end <= |bytes| && bytes[n.stream.data + 2] < 0x20
    && DescriptorIn(bytes, n.stream.data + 3, n.stream.end, n.decoder)
    && n.decoder.tag == 4 && n.decoder.data + 13 <= n.decoder.end <= |bytes|
    && bytes[n.decoder.data] == 0x40 && 0x14 <= bytes[n.decoder.data + 1] < 0x18
    && DescriptorIn(bytes, n.decoder.data + 13, n.decoder.end, n.specific)
    && n.specific.tag == 5 && n.specific.data + 2 <= n.specific.end <= n.specific.data + 8
    && n.specific.end <= |bytes| && asc == bytes[n.specific.data..n.specific.end] && ConfigBits(asc, rate)
  }

  lemma DescriptorIff(bytes: seq<Byte>, at: nat, end: nat, d: Descriptor)
    requires end <= |bytes|
    ensures DescriptorAt(bytes, at, end) == Ok(d) <==> DescriptorIn(bytes, at, end, d)
  {
    DescriptorReadIff(bytes, at, end, d);
  }

  lemma ConfigRead(bytes: seq<Byte>, esds: Box, rate: nat, asc: seq<Byte>) returns (n: Nesting)
    requires Inside(esds, |bytes|) && ReadConfig(bytes, esds, rate) == Ok(asc)
    ensures ConfigHeld(bytes, esds, rate, asc, n)
  {
    hide FullHeader, DescriptorAt, RequestedConfig, DescriptorIn, ConfigBits;
    VersionIff(bytes, esds);
    var es := DescriptorAt(bytes, esds.data + 4, esds.end).value;
    var decoder := DescriptorAt(bytes, es.data + 3, es.end).value;
    var specific := DescriptorAt(bytes, decoder.data + 13, decoder.end).value;
    DescriptorIff(bytes, esds.data + 4, esds.end, es);
    DescriptorIff(bytes, es.data + 3, es.end, decoder);
    DescriptorIff(bytes, decoder.data + 13, decoder.end, specific);
    ConfigBitsIff(asc, rate);
    n := Nesting(es, decoder, specific);
  }

  lemma HeldConfig(bytes: seq<Byte>, esds: Box, rate: nat, asc: seq<Byte>, n: Nesting)
    requires Inside(esds, |bytes|) && ConfigHeld(bytes, esds, rate, asc, n)
    ensures ReadConfig(bytes, esds, rate) == Ok(asc)
  {
    hide FullHeader, DescriptorAt, RequestedConfig, DescriptorIn, ConfigBits;
    VersionIff(bytes, esds);
    DescriptorIff(bytes, esds.data + 4, esds.end, n.stream);
    DescriptorIff(bytes, n.stream.data + 3, n.stream.end, n.decoder);
    DescriptorIff(bytes, n.decoder.data + 13, n.decoder.end, n.specific);
    ConfigBitsIff(asc, rate);
  }

  /** One sample entry of the one sample description, its reserved words zero, and the esds box inside it. */
  ghost predicate DescriptionHeld(bytes: seq<Byte>, stsd: Box, entry: Box, esds: Box) {
    && VersionZero(bytes, stsd) && NumberAt(bytes, stsd.data + 4, stsd.end, 1)
    && OnlyIn(bytes, stsd.data + 8, stsd.end, MP4A, entry)
    && entry.data + 28 <= entry.end && NumberAt(bytes, entry.data + 8, entry.end, 0)
    && OnlyIn(bytes, entry.data + 28, entry.end, ESDS, esds)
  }

  ghost predicate ChildOf(bytes: seq<Byte>, parent: Box, kind: Kind, child: Box) {
    OnlyIn(bytes, parent.data, parent.end, kind, child)
  }

  lemma ChildIff(bytes: seq<Byte>, parent: Box, kind: Kind, child: Box)
    requires Inside(parent, |bytes|)
    ensures Child(bytes, parent, kind) == Ok(child) <==> ChildOf(bytes, parent, kind, child)
    ensures ChildOf(bytes, parent, kind, child) ==> Inside(child, |bytes|)
  {
    hide ParseBoxes, One, OnlyIn;
    OnlyIff(bytes, parent.data, parent.end, kind, child);
  }

  /** The boxes a track is read from. */
  datatype MovieBoxes = MovieBoxes(movie: Box, track: Box, tkhd: Box, media: Box, handler: Box, mdhd: Box, minf: Box,
      stbl: Box, stsd: Box, entry: Box, esds: Box, mvex: Box, trex: Box)

  /** The sample description and the configuration inside a sample table. */
  ghost predicate TableHeld(bytes: seq<Byte>, rate: nat, asc: seq<Byte>, b: MovieBoxes) {
    && ChildOf(bytes, b.stbl, STSD, b.stsd) && DescriptionHeld(bytes, b.stsd, b.entry, b.esds)
    && exists n :: ConfigHeld(bytes, b.esds, rate, asc, n)
  }

  /** The track's own values, and its defaults under its own id. */
  ghost predicate ValuesHeld(bytes: seq<Byte>, t: Track, b: MovieBoxes) {
    && VersionedAt(bytes, b.tkhd, t.id) && VersionedAt(bytes, b.mdhd, t.timescale)
    && 1 <= t.timescale <= 1_000_000_000 && HoldsAt(bytes, b.handler.data + 8, SOUN)
    && VersionZero(bytes, b.trex)
    && NumberAt(bytes, b.trex.data + 4, b.trex.end, t.id) && NumberAt(bytes, b.trex.data + 8, b.trex.end, 1)
    && NumberAt(bytes, b.trex.data + 12, b.trex.end, t.defaultDuration)
    && NumberAt(bytes, b.trex.data + 16, b.trex.end, t.defaultSize)
  }

  /** One movie box with one sound track; other boxes may stand beside those named here. */
  ghost predicate BoxesHeld(bytes: seq<Byte>, top: seq<Box>, b: MovieBoxes) {
    && (exists ftyp :: Sole(top, FTYP, ftyp)) && Sole(top, MOOV, b.movie)
    && ChildOf(bytes, b.movie, TRAK, b.track) && ChildOf(bytes, b.movie, MVEX, b.mvex)
    && ChildOf(bytes, b.track, TKHD, b.tkhd) && ChildOf(bytes, b.track, MDIA, b.media)
    && ChildOf(bytes, b.media, HDLR, b.handler) && ChildOf(bytes, b.media, MDHD, b.mdhd)
    && ChildOf(bytes, b.media, MINF, b.minf) && ChildOf(bytes, b.minf, STBL, b.stbl)
    && ChildOf(bytes, b.mvex, TREX, b.trex)
  }

  ghost predicate TrackHeld(bytes: seq<Byte>, top: seq<Box>, rate: nat, t: Track, b: MovieBoxes) {
    BoxesHeld(bytes, top, b) && TableHeld(bytes, rate, t.asc, b) && ValuesHeld(bytes, t, b)
  }

  lemma SubIs(bytes: seq<Byte>, at: nat, s: seq<Byte>)
    requires |s| > 0
    ensures Sub(bytes, at, at + |s|) == s <==> HoldsAt(bytes, at, s)
  {
  }

  lemma FieldFits(bytes: seq<Byte>, at: nat, end: nat, n: nat)
    ensures NumberAt(bytes, at, end, n) ==> at + 4 <= end <= |bytes|
  {
  }

  /** The configuration read from a sample table is held in it. */
  lemma TableIsHeld(bytes: seq<Byte>, rate: nat, asc: seq<Byte>, b: MovieBoxes) returns (c: MovieBoxes)
    requires Inside(b.stbl, |bytes|) && ReadDescription(bytes, b.stbl, rate) == Ok(asc)
    ensures TableHeld(bytes, rate, asc, c) && c == b.(stsd := c.stsd, entry := c.entry, esds := c.esds)
  {
    hide ParseBoxes, One, ReadConfig, FullHeader, U32, ConfigHeld, OnlyIn, Child, ChildOf, NumberAt, FourCC;
    MovieTypes();
    var stsd := Child(bytes, b.stbl, FourCC("stsd")).value;
    ChildIff(bytes, b.stbl, STSD, stsd);
    VersionIff(bytes, stsd);
    U32Iff(bytes, stsd.data + 4, stsd.end, 1);
    FieldFits(bytes, stsd.data + 4, stsd.end, 1);
    var entry := One(ParseBoxes(bytes, stsd.data + 8, stsd.end).value, FourCC("mp4a")).value;
    OnlyIff(bytes, stsd.data + 8, stsd.end, MP4A, entry);
    U32Iff(bytes, entry.data + 8, entry.end, 0);
    var esds := One(ParseBoxes(bytes, entry.data + 28, entry.end).value, FourCC("esds")).value;
    OnlyIff(bytes, entry.data + 28, entry.end, ESDS, esds);
    var n := ConfigRead(bytes, esds, rate, asc);
    c := b.(stsd := stsd, entry := entry, esds := esds);
  }

  lemma HeldTableIsRead(bytes: seq<Byte>, rate: nat, asc: seq<Byte>, b: MovieBoxes)
    requires Inside(b.stbl, |bytes|) && TableHeld(bytes, rate, asc, b)
    ensures ReadDescription(bytes, b.stbl, rate) == Ok(asc)
  {
    hide ParseBoxes, One, ReadConfig, FullHeader, U32, ConfigHeld, OnlyIn, Child, ChildOf, NumberAt, FourCC;
    MovieTypes();
    ChildIff(bytes, b.stbl, STSD, b.stsd);
    VersionIff(bytes, b.stsd);
    U32Iff(bytes, b.stsd.data + 4, b.stsd.end, 1);
    FieldFits(bytes, b.stsd.data + 4, b.stsd.end, 1);
    OnlyIff(bytes, b.stsd.data + 8, b.stsd.end, MP4A, b.entry);
    U32Iff(bytes, b.entry.data + 8, b.entry.end, 0);
    OnlyIff(bytes, b.entry.data + 28, b.entry.end, ESDS, b.esds);
    var n :| ConfigHeld(bytes, b.esds, rate, asc, n);
    HeldConfig(bytes, b.esds, rate, asc, n);
  }

  lemma TrackIsHeld(bytes: seq<Byte>, top: seq<Box>, rate: nat, t: Track) returns (b: MovieBoxes)
    requires (forall box | box in top :: Inside(box, |bytes|)) && ReadTrack(bytes, top, rate) == Ok(t)
    ensures TrackHeld(bytes, top, rate, t, b)
  {
    hide ParseBoxes, One, FullHeader, U32, Sole, Child, ChildOf, NumberAt, FourCC, Sub, HoldsAt;
    hide ReadDescription, TableHeld, VersionedField, VersionedAt;
    MovieTypes();
    var movie := One(top, FourCC("moov")).value;
    OneIff(top, FTYP, One(top, FourCC("ftyp")).value);
    OneIff(top, MOOV, movie);
    var track, mvex := Child(bytes, movie, FourCC("trak")).value, Child(bytes, movie, FourCC("mvex")).value;
    ChildIff(bytes, movie, TRAK, track);
    ChildIff(bytes, movie, MVEX, mvex);
    var tkhd, media := Child(bytes, track, FourCC("tkhd")).value, Child(bytes, track, FourCC("mdia")).value;
    ChildIff(bytes, track, TKHD, tkhd);
    ChildIff(bytes, track, MDIA, media);
    var handler, mdhd := Child(bytes, media, FourCC("hdlr")).value, Child(bytes, media, FourCC("mdhd")).value;
    var minf := Child(bytes, media, FourCC("minf")).value;
    ChildIff(bytes, media, HDLR, handler);
    ChildIff(bytes, media, MDHD, mdhd);
    ChildIff(bytes, media, MINF, minf);
    var stbl, trex := Child(bytes, minf, FourCC("stbl")).value, Child(bytes, mvex, FourCC("trex")).value;
    ChildIff(bytes, minf, STBL, stbl);
    ChildIff(bytes, mvex, TREX, trex);
    b := MovieBoxes(movie, track, tkhd, media, handler, mdhd, minf, stbl, stbl, stbl, stbl, mvex, trex);
    b := TableIsHeld(bytes, rate, t.asc, b);
    ValuesIff(bytes, t, b);
  }

  lemma HeldTrackIsRead(bytes: seq<Byte>, top: seq<Box>, rate: nat, t: Track, b: MovieBoxes)
    requires (forall box | box in top :: Inside(box, |bytes|)) && TrackHeld(bytes, top, rate, t, b)
    ensures ReadTrack(bytes, top, rate) == Ok(t)
  {
    hide ParseBoxes, One, FullHeader, U32, Sole, Child, ChildOf, NumberAt, FourCC, Sub, HoldsAt;
    hide ReadDescription, TableHeld, VersionedField, VersionedAt;
    MovieTypes();
    var ftyp :| Sole(top, FTYP, ftyp);
    OneIff(top, FTYP, ftyp);
    OneIff(top, MOOV, b.movie);
    ChildIff(bytes, b.movie, TRAK, b.track);
    ChildIff(bytes, b.movie, MVEX, b.mvex);
    ChildIff(bytes, b.track, TKHD, b.tkhd);
    ChildIff(bytes, b.track, MDIA, b.media);
    ChildIff(bytes, b.media, HDLR, b.handler);
    ChildIff(bytes, b.media, MDHD, b.mdhd);
    ChildIff(bytes, b.media, MINF, b.minf);
    ChildIff(bytes, b.minf, STBL, b.stbl);
    ChildIff(bytes, b.mvex, TREX, b.trex);
    HeldTableIsRead(bytes, rate, t.asc, b);
    ValuesIff(bytes, t, b);
  }

  /** The fields as they are read. */
  lemma ValuesIff(bytes: seq<Byte>, t: Track, b: MovieBoxes)
    requires Inside(b.tkhd, |bytes|) && Inside(b.mdhd, |bytes|) && Inside(b.trex, |bytes|) && Inside(b.handler, |bytes|)
    ensures ValuesHeld(bytes, t, b) <==>
            && VersionedField(bytes, b.tkhd) == Ok(t.id) && VersionedField(bytes, b.mdhd) == Ok(t.timescale)
            && 1 <= t.timescale <= 1_000_000_000 && Sub(bytes, b.handler.data + 8, b.handler.data + 12) == SOUN
            && FullHeader(bytes, b.trex).Ok? && FullHeader(bytes, b.trex).value.version == 0
            && U32(bytes, b.trex.data + 4, b.trex.end) == Ok(t.id) && U32(bytes, b.trex.data + 8, b.trex.end) == Ok(1)
            && U32(bytes, b.trex.data + 12, b.trex.end) == Ok(t.defaultDuration)
            && U32(bytes, b.trex.data + 16, b.trex.end) == Ok(t.defaultSize)
  {
    hide FullHeader, U32, NumberAt, Sub, HoldsAt, VersionedField, VersionedAt;
    VersionedIff(bytes, b.tkhd, t.id);
    VersionedIff(bytes, b.mdhd, t.timescale);
    SubIs(bytes, b.handler.data + 8, SOUN);
    VersionIff(bytes, b.trex);
    U32Iff(bytes, b.trex.data + 4, b.trex.end, t.id);
    U32Iff(bytes, b.trex.data + 8, b.trex.end, 1);
    U32Iff(bytes, b.trex.data + 12, b.trex.end, t.defaultDuration);
    U32Iff(bytes, b.trex.data + 16, b.trex.end, t.defaultSize);
  }

  /** The extractor reads a track exactly where the format puts one. */
  lemma TrackIff(bytes: seq<Byte>, top: seq<Box>, rate: nat, t: Track)
    requires forall box | box in top :: Inside(box, |bytes|)
    ensures ReadTrack(bytes, top, rate) == Ok(t) <==> exists b :: TrackHeld(bytes, top, rate, t, b)
  {
    hide ReadTrack, TrackHeld;
    if ReadTrack(bytes, top, rate) == Ok(t) {
      var b := TrackIsHeld(bytes, top, rate, t);
    }
    if b :| TrackHeld(bytes, top, rate, t, b) {
      HeldTrackIsRead(bytes, top, rate, t, b);
    }
  }

  // ----------------------------------------------------------------- fragments

  predicate Rising(at: seq<nat>) {
    forall j, k | 0 <= j < k < |at| :: at[j] < at[k]
  }

  predicate OnlySuch(boxes: seq<Box>, kind: Kind, from: nat, at: seq<nat>) {
    forall k | 0 <= k < |at| :: from <= at[k] < |boxes| && boxes[at[k]].kind == kind
  }

  predicate EverySuch(boxes: seq<Box>, kind: Kind, from: nat, at: seq<nat>) {
    forall n | from <= n < |boxes| && boxes[n].kind == kind :: n in at
  }

  /** `at` are the positions of the boxes of the kind, from `from` on, ascending. */
  predicate Positions(boxes: seq<Box>, kind: Kind, from: nat, at: seq<nat>) {
    OnlySuch(boxes, kind, from, at) && Rising(at) && EverySuch(boxes, kind, from, at)
  }

  predicate TakenAt(boxes: seq<Box>, at: seq<nat>, picked: seq<Box>) {
    |picked| == |at| && forall k | 0 <= k < |at| :: at[k] < |boxes| && picked[k] == boxes[at[k]]
  }

  /** All boxes of the kind, in their order. */
  ghost predicate Picks(boxes: seq<Box>, kind: Kind, picked: seq<Box>) {
    exists at :: Positions(boxes, kind, 0, at) && TakenAt(boxes, at, picked)
  }

  lemma {:induction false} SelectedFrom(boxes: seq<Box>, kind: Kind, i: nat) returns (at: seq<nat>)
    requires i <= |boxes|
    ensures Positions(boxes, kind, i, at) && TakenAt(boxes, at, Select(boxes[i..], kind))
    decreases |boxes| - i
  {
    if i == |boxes| {
      at := [];
    } else {
      var rest := SelectedFrom(boxes, kind, i + 1);
      assert boxes[i..][0] == boxes[i] && boxes[i..][1..] == boxes[i + 1..];
      at := if boxes[i].kind == kind then [i] + rest else rest;
      hide Select, Positions, TakenAt;
      FrontPosition(boxes, kind, i, rest);
      FrontTaken(boxes, kind, i, rest, Select(boxes[i + 1..], kind));
      SelectFirst(boxes[i..], kind);
    }
  }

  lemma SelectFirst(boxes: seq<Box>, kind: Kind)
    requires boxes != []
    ensures var rest := Select(boxes[1..], kind);
            Select(boxes, kind) == if boxes[0].kind == kind then [boxes[0]] + rest else rest
  {
  }

  lemma FrontPosition(boxes: seq<Box>, kind: Kind, i: nat, rest: seq<nat>)
    requires i < |boxes| && Positions(boxes, kind, i + 1, rest)
    ensures Positions(boxes, kind, i, if boxes[i].kind == kind then [i] + rest else rest)
  {
    if boxes[i].kind == kind {
      var at := [i] + rest;
      assert Rising(at) && OnlySuch(boxes, kind, i, at) by { hide EverySuch; }
      hide Rising, OnlySuch;
      forall n | i <= n < |boxes| && boxes[n].kind == kind
        ensures n in at
      {
        assert n > i ==> n in rest;
      }
    }
  }

  lemma FrontTaken(boxes: seq<Box>, kind: Kind, i: nat, rest: seq<nat>, picked: seq<Box>)
    requires i < |boxes| && TakenAt(boxes, rest, picked)
    ensures if boxes[i].kind == kind then TakenAt(boxes, [i] + rest, [boxes[i]] + picked)
            else TakenAt(boxes, rest, picked)
  {
  }

  lemma PositionOf(boxes: seq<Box>, kind: Kind, at: seq<nat>, i: nat) returns (k: nat)
    requires Positions(boxes, kind, 0, at) && i < |boxes| && boxes[i].kind == kind
    ensures k < |at| && at[k] == i
  {
    assert i in at;
    k :| 0 <= k < |at| && at[k] == i;
  }

  lemma NotBefore(boxes: seq<Box>, kind: Kind, a: seq<nat>, b: seq<nat>, n: nat)
    requires Positions(boxes, kind, 0, a) && Positions(boxes, kind, 0, b) && n < |a| && n < |b| && a[..n] == b[..n]
    ensures a[n] <= b[n]
  {
    var k := PositionOf(boxes, kind, a, b[n]);
  }

  /** There is only one such list of positions. */
  lemma {:induction false} SamePositions(boxes: seq<Box>, kind: Kind, a: seq<nat>, b: seq<nat>, n: nat)
    requires Positions(boxes, kind, 0, a) && Positions(boxes, kind, 0, b) && n <= |a| && n <= |b|
    ensures a[..n] == b[..n]
  {
    if n > 0 {
      SamePositions(boxes, kind, a, b, n - 1);
      NotBefore(boxes, kind, a, b, n - 1);
      NotBefore(boxes, kind, b, a, n - 1);
      assert a[..n] == a[..n - 1] + [a[n - 1]] && b[..n] == b[..n - 1] + [b[n - 1]];
    }
  }

  lemma NotLonger(boxes: seq<Box>, kind: Kind, a: seq<nat>, b: seq<nat>)
    requires Positions(boxes, kind, 0, a) && Positions(boxes, kind, 0, b)
    ensures |b| <= |a|
  {
    if |a| < |b| {
      var k := PositionOf(boxes, kind, a, b[|a|]);
      SamePositions(boxes, kind, a, b, |a|);
    }
  }

  lemma AllPositions(boxes: seq<Box>, kind: Kind, a: seq<nat>, b: seq<nat>)
    requires Positions(boxes, kind, 0, a) && Positions(boxes, kind, 0, b)
    ensures a == b
  {
    NotLonger(boxes, kind, a, b);
    NotLonger(boxes, kind, b, a);
    SamePositions(boxes, kind, a, b, |a|);
    assert a[..|a|] == a && b[..|b|] == b;
  }

  lemma PicksIff(boxes: seq<Box>, kind: Kind, picked: seq<Box>)
    ensures Select(boxes, kind) == picked <==> Picks(boxes, kind, picked)
  {
    var at := SelectedFrom(boxes, kind, 0);
    assert boxes[0..] == boxes && Positions(boxes, kind, 0, at);
    hide Positions;
    if other :| Positions(boxes, kind, 0, other) && TakenAt(boxes, other, picked) {
      AllPositions(boxes, kind, at, other);
      assert Select(boxes, kind) == picked;
    }
  }

  /** The boxes a fragment is read from, and the fields written in them. */
  datatype FragmentParts = FragmentParts(traf: Box, children: seq<Box>, tfhd: Box, tfdt: Box, truns: seq<Box>,
      header: HeaderFields, clock: ClockFields, runs: seq<RunFields>)

  /** One track fragment of nothing but one header, one clock, sample runs and sdtp boxes. */
  ghost predicate PartsHeld(bytes: seq<Byte>, moof: Box, p: FragmentParts) {
    && ChildOf(bytes, moof, TRAF, p.traf) && Boxed(bytes, p.traf.data, p.traf.end, p.children)
    && (forall box | box in p.children :: box.kind in [TFHD, TFDT, TRUN, SDTP])
    && Sole(p.children, TFHD, p.tfhd) && Sole(p.children, TFDT, p.tfdt)
    && Picks(p.children, TRUN, p.truns) && 0 < |p.truns| == |p.runs|
  }

  ghost predicate RunHeldAt(bytes: seq<Byte>, run: Box, r: RunFields) {
    r.Fits() && r.InRange() && r.Accepted() && Carries(bytes, run, r.Print())
  }

  /** Each box holds exactly the printed form of its fields. */
  ghost predicate FieldsHeld(bytes: seq<Byte>, track: Track, p: FragmentParts) {
    && p.header.Fits() && p.header.Accepted(track) && Carries(bytes, p.tfhd, p.header.Print())
    && p.clock.Fits() && p.clock.Accepted() && Carries(bytes, p.tfdt, p.clock.Print())
    && |p.truns| == |p.runs| && forall k | 0 <= k < |p.runs| :: RunHeldAt(bytes, p.truns[k], p.runs[k])
  }

  /** What the fields say: base, decode time, and each run's offset and entries. */
  function Said(moof: Box, track: Track, p: FragmentParts): Fragment {
    var h := p.header.Header(moof.start, track);
    Fragment(h.base, p.clock.time, seq(|p.runs|, k requires 0 <= k < |p.runs| => p.runs[k].Run(h)))
  }

  ghost predicate FragmentHeld(bytes: seq<Byte>, moof: Box, track: Track, f: Fragment, p: FragmentParts) {
    PartsHeld(bytes, moof, p) && FieldsHeld(bytes, track, p) && f == Said(moof, track, p)
  }

  lemma OpenedIs(bytes: seq<Byte>, moof: Box, track: Track, traf: Box, children: seq<Box>)
    requires Inside(moof, |bytes|) && Child(bytes, moof, FourCC("traf")) == Ok(traf)
    requires ParseBoxes(bytes, traf.data, traf.end) == Ok(children)
    requires forall box | box in children :: Inside(box, |bytes|)
    ensures OpenFragment(bytes, moof, track).Ok? <==>
            && (forall box | box in children :: box.kind in [TFHD, TFDT, TRUN, SDTP])
            && One(children, TFHD).Ok? && ReadHeader(bytes, One(children, TFHD).value, moof.start, track).Ok?
            && One(children, TFDT).Ok? && ReadClock(bytes, One(children, TFDT).value).Ok?
            && Select(children, TRUN) != []
    ensures OpenFragment(bytes, moof, track).Ok? ==>
              OpenFragment(bytes, moof, track).value
              == FragmentBoxes(ReadHeader(bytes, One(children, TFHD).value, moof.start, track).value,
                               ReadClock(bytes, One(children, TFDT).value).value, Select(children, TRUN))
  {
    hide Child, ParseBoxes, One, ReadHeader, ReadClock, Select, FourCC;
    FragmentTypes();
  }

  lemma FragmentIsHeld(bytes: seq<Byte>, moof: Box, track: Track, f: Fragment) returns (p: FragmentParts)
    requires Inside(moof, |bytes|) && DecodeFragment(bytes, moof, track) == Ok(f)
    ensures FragmentHeld(bytes, moof, track, f, p)
  {
    hide Child, ChildOf, ParseBoxes, One, ReadHeader, ReadClock, Select, FourCC, Sole, Picks, Boxed, DecodeRun;
    hide HeaderFields.Print, ClockFields.Print, RunFields.Print, Carries, HeaderFields.Accepted, HeaderFields.Fits;
    hide ClockFields.Accepted, ClockFields.Fits, RunFields.Accepted, RunFields.Fits, RunFields.InRange, RunFields.Run;
    hide HeaderFields.Header;
    FragmentTypes();
    var open := OpenFragment(bytes, moof, track).value;
    var traf := Child(bytes, moof, FourCC("traf")).value;
    var children := ParseBoxes(bytes, traf.data, traf.end).value;
    ChildIff(bytes, moof, TRAF, traf);
    BoxedIff(bytes, traf.data, traf.end, children);
    OpenedIs(bytes, moof, track, traf, children);
    var tfhd, tfdt, truns := One(children, TFHD).value, One(children, TFDT).value, Select(children, TRUN);
    OneIff(children, TFHD, tfhd);
    OneIff(children, TFDT, tfdt);
    PicksIff(children, TRUN, truns);
    var h := HeaderPrinted(bytes, tfhd, moof.start, track);
    var c := ClockPrinted(bytes, tfdt);
    var runs := AllRunsPrinted(bytes, truns, open.header, |truns|);
    p := FragmentParts(traf, children, tfhd, tfdt, truns, h, c, runs);
  }

  lemma {:induction false} AllRunsPrinted(bytes: seq<Byte>, truns: seq<Box>, header: Header, n: nat)
    returns (runs: seq<RunFields>)
    requires n <= |truns| && (forall run | run in truns :: Inside(run, |bytes|)) && RunsDecode(bytes, truns, header)
    ensures |runs| == n && forall k | 0 <= k < n ::
      RunHeldAt(bytes, truns[k], runs[k]) && DecodeRun(bytes, truns[k], header) == Ok(runs[k].Run(header))
  {
    hide DecodeRun, RunFields.Print, Carries, RunFields.Accepted, RunFields.Fits, RunFields.InRange, RunFields.Run;
    if n == 0 {
      runs := [];
    } else {
      var front := AllRunsPrinted(bytes, truns, header, n - 1);
      var r := RunPrinted(bytes, truns[n - 1], header);
      runs := front + [r];
    }
  }

  lemma HeldFragmentIsRead(bytes: seq<Byte>, moof: Box, track: Track, f: Fragment, p: FragmentParts)
    requires Inside(moof, |bytes|) && FragmentHeld(bytes, moof, track, f, p)
    ensures DecodeFragment(bytes, moof, track) == Ok(f)
  {
    hide Child, ChildOf, ParseBoxes, One, ReadHeader, ReadClock, Select, FourCC, Sole, Picks, Boxed, DecodeRun;
    hide HeaderFields.Print, ClockFields.Print, RunFields.Print, HeaderFields.Accepted, HeaderFields.Fits, HoldsAt;
    hide ClockFields.Accepted, ClockFields.Fits, RunFields.Accepted, RunFields.Fits, RunFields.InRange, RunFields.Run;
    hide HeaderFields.Header;
    FragmentTypes();
    ChildIff(bytes, moof, TRAF, p.traf);
    BoxedIff(bytes, p.traf.data, p.traf.end, p.children);
    assert forall box | box in p.children :: Inside(box, p.traf.end);
    OneIff(p.children, TFHD, p.tfhd);
    OneIff(p.children, TFDT, p.tfdt);
    PicksIff(p.children, TRUN, p.truns);
    HeaderRead(bytes, p.tfhd, p.header, moof.start, track);
    ClockRead(bytes, p.tfdt, p.clock);
    OpenedIs(bytes, moof, track, p.traf, p.children);
    var h := p.header.Header(moof.start, track);
    forall k | 0 <= k < |p.runs|
      ensures DecodeRun(bytes, p.truns[k], h) == Ok(p.runs[k].Run(h))
    {
      RunRead(bytes, p.truns[k], h, p.runs[k]);
    }
    DecodedIs(bytes, moof, track, FragmentBoxes(h, p.clock.time, p.truns),
              seq(|p.runs|, k requires 0 <= k < |p.runs| => p.runs[k].Run(h)));
  }

  lemma DecodedIs(bytes: seq<Byte>, moof: Box, track: Track, open: FragmentBoxes, runs: seq<Run>)
    requires Inside(moof, |bytes|) && OpenFragment(bytes, moof, track) == Ok(open) && |runs| == |open.runs|
    requires forall k | 0 <= k < |runs| :: DecodeRun(bytes, open.runs[k], open.header) == Ok(runs[k])
    ensures DecodeFragment(bytes, moof, track) == Ok(Fragment(open.header.base, open.time, runs))
  {
    hide OpenFragment, DecodeRun;
    assert RunsDecode(bytes, open.runs, open.header);
    var f := DecodeFragment(bytes, moof, track);
    assert f.Ok? && |f.value.runs| == |runs|;
    assert f.value.runs == runs;
  }

  ghost predicate IsFragment(bytes: seq<Byte>, moof: Box, track: Track, f: Fragment) {
    exists p :: FragmentHeld(bytes, moof, track, f, p)
  }

  /** The extractor reads a fragment exactly where the format puts one. */
  lemma FragmentIff(bytes: seq<Byte>, moof: Box, track: Track, f: Fragment)
    requires Inside(moof, |bytes|)
    ensures DecodeFragment(bytes, moof, track) == Ok(f) <==> IsFragment(bytes, moof, track, f)
  {
    hide DecodeFragment, FragmentHeld;
    if DecodeFragment(bytes, moof, track) == Ok(f) {
      var p := FragmentIsHeld(bytes, moof, track, f);
    }
    if p :| FragmentHeld(bytes, moof, track, f, p) {
      HeldFragmentIsRead(bytes, moof, track, f, p);
    }
  }

  // ------------------------------------------------------------------ the file

  ghost predicate FragmentsHeld(bytes: seq<Byte>, moofs: seq<Box>, track: Track, fragments: seq<Fragment>) {
    && |moofs| == |fragments|
    && forall k: nat | k < |moofs| :: IsFragment(bytes, moofs[k], track, fragments[k])
  }

  /** A file of 1 byte to 8 MiB: boxes, among them one movie box with one track, and the fragments in order. */
  ghost predicate FileHeld(bytes: seq<Byte>, rate: nat, movie: Movie) {
    && 0 < |bytes| <= 8388608 && Boxed(bytes, 0, |bytes|, movie.top)
    && (exists b :: TrackHeld(bytes, movie.top, rate, movie.track, b))
    && exists moofs :: Picks(movie.top, MOOF, moofs) && FragmentsHeld(bytes, moofs, movie.track, movie.fragments)
  }

  lemma AllFragmentsIff(bytes: seq<Byte>, moofs: seq<Box>, track: Track, fragments: seq<Fragment>)
    requires forall box | box in moofs :: Inside(box, |bytes|)
    ensures FragmentsHeld(bytes, moofs, track, fragments) <==>
            |moofs| == |fragments| && forall k: nat | k < |moofs| ::
              DecodeFragment(bytes, moofs[k], track) == Ok(fragments[k])
  {
    hide DecodeFragment, IsFragment;
    if |moofs| == |fragments| {
      forall k: nat | k < |moofs|
        ensures DecodeFragment(bytes, moofs[k], track) == Ok(fragments[k]) <==>
                IsFragment(bytes, moofs[k], track, fragments[k])
      {
        FragmentIff(bytes, moofs[k], track, fragments[k]);
      }
    }
  }

  lemma DecodedFileIs(bytes: seq<Byte>, rate: nat, top: seq<Box>, track: Track, fragments: seq<Fragment>)
    requires 0 < |bytes| <= MAX_BYTES && ParseBoxes(bytes, 0, |bytes|) == Ok(top)
    requires (forall box | box in top :: Inside(box, |bytes|)) && ReadTrack(bytes, top, rate) == Ok(track)
    requires |fragments| == |Select(top, FourCC("moof"))|
    requires forall k: nat | k < |fragments| ::
               Inside(Select(top, FourCC("moof"))[k], |bytes|)
               && DecodeFragment(bytes, Select(top, FourCC("moof"))[k], track) == Ok(fragments[k])
    ensures Decode(bytes, rate) == Ok(Movie(top, track, fragments))
  {
    hide ReadTrack, FourCC, ParseBoxes, DecodeFragment, Select;
    assert FragmentsDecode(bytes, Select(top, FourCC("moof")), track);
    var movie := Decode(bytes, rate);
    assert movie.Ok? && |movie.value.fragments| == |fragments|;
    assert movie.value.fragments == fragments;
  }

  /** The extractor finds the tables of a file exactly where the format puts them. */
  lemma FileIff(bytes: seq<Byte>, rate: nat, movie: Movie)
    ensures Decode(bytes, rate) == Ok(movie) <==> FileHeld(bytes, rate, movie)
  {
    hide ReadTrack, TrackHeld, DecodeFragment, FragmentsHeld, ParseBoxes, Boxed, Select, Picks, FourCC, Tiles;
    FragmentTypes();
    if 0 < |bytes| <= 8388608 {
      BoxedIff(bytes, 0, |bytes|, movie.top);
      var moofs := Select(movie.top, MOOF);
      PicksIff(movie.top, MOOF, moofs);
      if ParseBoxes(bytes, 0, |bytes|) == Ok(movie.top) {
        TrackIff(bytes, movie.top, rate, movie.track);
        AllFragmentsIff(bytes, moofs, movie.track, movie.fragments);
        if Decode(bytes, rate) == Ok(movie) {
          assert FragmentsHeld(bytes, moofs, movie.track, movie.fragments);
        }
        if FileHeld(bytes, rate, movie) {
          var other :| Picks(movie.top, MOOF, other) && FragmentsHeld(bytes, other, movie.track, movie.fragments);
          PicksIff(movie.top, MOOF, other);
          DecodedFileIs(bytes, rate, movie.top, movie.track, movie.fragments);
        }
      }
    }
  }
}
