/** A writer of movie boxes whose fields hold any values. The extractor accepts exactly those with the right
    ones, and reads from them exactly their track. */
module AacMovie {
  import opened Common
  import opened Bytes
  import opened Mp4Boxes
  import opened AacTrack
  import opened AacPrinted

  /** The descriptors around a configuration: their tags, their flag, object and stream bytes, and the width
      of their lengths. */
  datatype Nest = Nest(stream: Byte, decoder: Byte, specific: Byte, flags: Byte, objectType: Byte, streamType: Byte,
      digits: nat) {
    predicate Fits() {
      1 <= digits <= 4
    }

    /** No optional stream fields, MPEG-4 audio, an audio stream. */
    predicate Accepted() {
      stream == 3 && decoder == 4 && specific == 5 && flags / 32 == 0 && objectType == 0x40 && streamType / 4 == 5
    }
  }

  /** Versions and counts the movie box declares. */
  datatype Versions = Versions(tkhd: nat, mdhd: nat, stsd: nat, esds: nat, trex: nat, descriptions: nat,
      reserved: nat) {
    predicate Fits() {
      && tkhd < 0x100 && mdhd < 0x100 && stsd < 0x100 && esds < 0x100 && trex < 0x100
      && descriptions < 0x1_0000_0000 && reserved < 0x1_0000_0000
    }

    predicate Accepted() {
      tkhd <= 1 && mdhd <= 1 && stsd == 0 && esds == 0 && trex == 0 && descriptions == 1 && reserved == 0
    }
  }

  /** What a movie box says. */
  datatype Config = Config(id: nat, timescale: nat, handler: Kind, asc: seq<Byte>, duration: nat, size: nat,
                           owner: nat, description: nat, versions: Versions, nest: Nest) {
    predicate Fits() {
      && id < 0x1_0000_0000 && timescale < 0x1_0000_0000 && |handler| == 4 && |asc| <= 64
      && duration < 0x1_0000_0000 && size < 0x1_0000_0000 && owner < 0x1_0000_0000 && description < 0x1_0000_0000
      && versions.Fits() && nest.Fits()
    }

    predicate GoodConfig(rate: nat) {
      versions.esds == 0 && nest.Accepted() && 2 <= |asc| <= 8 && RequestedConfig(asc, rate)
    }

    predicate GoodDescription(rate: nat) {
      versions.stsd == 0 && versions.descriptions == 1 && versions.reserved == 0 && GoodConfig(rate)
    }

    /** One sound track of the requested kind, whose defaults are its own. */
    predicate Accepted(rate: nat) {
      && versions.Accepted() && nest.Accepted() && handler == FourCC("soun") && 1 <= timescale <= 1_000_000_000
      && owner == id && description == 1 && 2 <= |asc| <= 8 && RequestedConfig(asc, rate)
    }

    function Track(): Track {
      AacTrack.Track.Track(id, timescale, asc, duration, size)
    }
  }

  // -------------------------------------------------------------- descriptors

  function DescriptorBytes(tag: Byte, digits: nat, payload: seq<Byte>): (b: seq<Byte>)
    requires 1 <= digits <= 4 && |payload| < 0x80
    ensures |b| == 1 + digits + |payload|
  {
    [tag] + (PrintLength(|payload|, digits) + payload)
  }

  lemma DescriptorRead(bytes: seq<Byte>, at: nat, end: nat, tag: Byte, digits: nat, payload: seq<Byte>)
    requires 1 <= digits <= 4 && |payload| < 0x80 && HoldsAt(bytes, at, DescriptorBytes(tag, digits, payload))
    requires at + 1 + digits + |payload| <= end <= |bytes|
    ensures DescriptorAt(bytes, at, end) == Ok(Descriptor(tag, at + 1 + digits, at + 1 + digits + |payload|))
    ensures HoldsAt(bytes, at + 1 + digits, payload)
  {
    PrintedDescriptorRead(tag, digits, payload, bytes, at, end);
  }

  function Specific(c: Config): (b: seq<Byte>)
    requires c.Fits()
    ensures |b| == 1 + c.nest.digits + |c.asc|
  {
    DescriptorBytes(c.nest.specific, c.nest.digits, c.asc)
  }

  function Decoder(c: Config): (b: seq<Byte>)
    requires c.Fits()
    ensures |b| == 1 + c.nest.digits + 13 + |Specific(c)|
  {
    DescriptorBytes(c.nest.decoder, c.nest.digits, [c.nest.objectType, c.nest.streamType] + (Zeros(11) + Specific(c)))
  }

  function Stream(c: Config): (b: seq<Byte>)
    requires c.Fits()
    ensures |b| == 1 + c.nest.digits + 3 + |Decoder(c)|
  {
    DescriptorBytes(c.nest.stream, c.nest.digits, [0, 1, c.nest.flags] + Decoder(c))
  }

  function Esds(c: Config): seq<Byte>
    requires c.Fits()
  {
    Print32(c.versions.esds * 0x100_0000) + Stream(c)
  }

  /** The descriptor of the stream, and the decoder descriptor inside it. */
  lemma StreamRead(bytes: seq<Byte>, at: nat, end: nat, c: Config)
    requires c.Fits() && HoldsAt(bytes, at, Stream(c)) && end == at + |Stream(c)| <= |bytes|
    ensures var es := at + 1 + c.nest.digits;
            && DescriptorAt(bytes, at, end) == Ok(Descriptor(c.nest.stream, es, end)) && bytes[es + 2] == c.nest.flags
            && HoldsAt(bytes, es + 3, Decoder(c)) && end == es + 3 + |Decoder(c)|
  {
    hide DescriptorAt, PrintLength, HoldsAt, Decoder, DescriptorBytes;
    var es, inner := at + 1 + c.nest.digits, [0, 1, c.nest.flags] + Decoder(c);
    DescriptorRead(bytes, at, end, c.nest.stream, c.nest.digits, inner);
    HoldsSplit(bytes, es, [0, 1, c.nest.flags], Decoder(c));
    HoldsSplit(bytes, es, [0, 1], [c.nest.flags]);
    assert [0, 1] + [c.nest.flags] == [0, 1, c.nest.flags];
    ByteHeld(bytes, es + 2, c.nest.flags);
  }

  lemma DecoderRead(bytes: seq<Byte>, at: nat, end: nat, c: Config)
    requires c.Fits() && HoldsAt(bytes, at, Decoder(c)) && end == at + |Decoder(c)| <= |bytes|
    ensures var data := at + 1 + c.nest.digits;
            && DescriptorAt(bytes, at, end) == Ok(Descriptor(c.nest.decoder, data, end))
            && bytes[data] == c.nest.objectType && bytes[data + 1] == c.nest.streamType
            && HoldsAt(bytes, data + 13, Specific(c)) && end == data + 13 + |Specific(c)|
  {
    hide DescriptorAt, PrintLength, HoldsAt, Specific, DescriptorBytes;
    var data, two := at + 1 + c.nest.digits, [c.nest.objectType, c.nest.streamType];
    DescriptorRead(bytes, at, end, c.nest.decoder, c.nest.digits, two + (Zeros(11) + Specific(c)));
    HoldsSplit(bytes, data, two, Zeros(11) + Specific(c));
    HoldsSplit(bytes, data + 2, Zeros(11), Specific(c));
    HoldsSplit(bytes, data, [c.nest.objectType], [c.nest.streamType]);
    assert [c.nest.objectType] + [c.nest.streamType] == two;
    ByteHeld(bytes, data, c.nest.objectType);
    ByteHeld(bytes, data + 1, c.nest.streamType);
  }

  lemma SpecificRead(bytes: seq<Byte>, at: nat, end: nat, c: Config)
    requires c.Fits() && HoldsAt(bytes, at, Specific(c)) && end == at + |Specific(c)| <= |bytes|
    ensures var data := at + 1 + c.nest.digits;
            && DescriptorAt(bytes, at, end) == Ok(Descriptor(c.nest.specific, data, end))
            && end == data + |c.asc| && bytes[data..end] == c.asc
  {
    hide DescriptorAt, PrintLength, DescriptorBytes;
    DescriptorRead(bytes, at, end, c.nest.specific, c.nest.digits, c.asc);
  }

  /** A written configuration is found through its three nested descriptors, and accepted exactly when they
      and it are of the demanded kind. */
  lemma EsdsRead(bytes: seq<Byte>, esds: Box, c: Config, rate: nat)
    requires c.Fits() && Carries(bytes, esds, Esds(c))
    ensures ReadConfig(bytes, esds, rate) == if c.GoodConfig(rate) then Ok(c.asc) else Invalid
  {
    hide Print32, DescriptorAt, FullHeader, RequestedConfig, Decoder, Specific, Stream, HoldsAt;
    var es := esds.data + 4 + 1 + c.nest.digits;
    FullRead(bytes, esds, c.versions.esds, 0, Stream(c));
    StreamRead(bytes, esds.data + 4, esds.end, c);
    DecoderRead(bytes, es + 3, esds.end, c);
    SpecificRead(bytes, es + 3 + 1 + c.nest.digits + 13, esds.end, c);
  }

  // ------------------------------------------------------------- descriptions

  function Mp4a(c: Config): seq<Byte>
    requires c.Fits()
  {
    Zeros(8) + (Print32(c.versions.reserved) + (Zeros(16) + Pack([Named("esds", Esds(c))])))
  }

  function Stsd(c: Config): seq<Byte>
    requires c.Fits()
  {
    Print32(c.versions.stsd * 0x100_0000) + (Print32(c.versions.descriptions) + Pack([Named("mp4a", Mp4a(c))]))
  }

  lemma Mp4aRead(bytes: seq<Byte>, entry: Box, c: Config)
    requires c.Fits() && Carries(bytes, entry, Mp4a(c)) && |bytes| <= MAX_BYTES
    ensures entry.end - entry.data >= 28 && U32(bytes, entry.data + 8, entry.end) == Ok(c.versions.reserved)
    ensures var inner := ParseBoxes(bytes, entry.data + 28, entry.end);
            inner.Ok? && var esds := One(inner.value, FourCC("esds")); esds.Ok? && Carries(bytes, esds.value, Esds(c))
  {
    hide Print32, ParseBoxes, One, HoldsAt, Pack, U32, Esds;
    var items := [Named("esds", Esds(c))];
    FieldRead(bytes, entry, Zeros(8), c.versions.reserved, Zeros(16) + Pack(items));
    HoldsSplit(bytes, entry.data + 12, Zeros(16), Pack(items));
    SingleOnly(items[0]);
    OneRead(bytes, entry.data + 28, entry.end, items, 0);
  }

  lemma StsdRead(bytes: seq<Byte>, stsd: Box, c: Config)
    requires c.Fits() && Carries(bytes, stsd, Stsd(c)) && |bytes| <= MAX_BYTES
    ensures FullHeader(bytes, stsd) == Ok(Full(c.versions.stsd, 0))
    ensures U32(bytes, stsd.data + 4, stsd.end) == Ok(c.versions.descriptions)
    ensures var list := ParseBoxes(bytes, stsd.data + 8, stsd.end);
            list.Ok? && var entry := One(list.value, FourCC("mp4a")); entry.Ok? && Carries(bytes, entry.value, Mp4a(c))
  {
    hide Print32, ParseBoxes, One, HoldsAt, Pack, U32, Mp4a, FullHeader;
    var items := [Named("mp4a", Mp4a(c))];
    FullRead(bytes, stsd, c.versions.stsd, 0, Print32(c.versions.descriptions) + Pack(items));
    HoldsSplit(bytes, stsd.data + 4, Print32(c.versions.descriptions), Pack(items));
    WordRead(bytes, stsd.data + 4, stsd.end, c.versions.descriptions);
    SingleOnly(items[0]);
    OneRead(bytes, stsd.data + 8, stsd.end, items, 0);
  }

  /** A written sample description gives its configuration, or is refused. */
  lemma DescriptionRead(bytes: seq<Byte>, stbl: Box, c: Config, rate: nat)
    requires c.Fits() && Carries(bytes, stbl, Pack([Named("stsd", Stsd(c))])) && |bytes| <= MAX_BYTES
    ensures ReadDescription(bytes, stbl, rate) == if c.GoodDescription(rate) then Ok(c.asc) else Invalid
  {
    hide ParseBoxes, One, HoldsAt, Pack, U32, Mp4a, Esds, Stsd, FullHeader, ReadConfig, Child, Config.GoodConfig;
    var items := [Named("stsd", Stsd(c))];
    SingleOnly(items[0]);
    ChildRead(bytes, stbl, items, 0);
    var stsd := Child(bytes, stbl, FourCC("stsd")).value;
    StsdRead(bytes, stsd, c);
    var entry := One(ParseBoxes(bytes, stsd.data + 8, stsd.end).value, FourCC("mp4a")).value;
    Mp4aRead(bytes, entry, c);
    EsdsRead(bytes, One(ParseBoxes(bytes, entry.data + 28, entry.end).value, FourCC("esds")).value, c, rate);
  }

  // -------------------------------------------------------------------- track

  function Handler(c: Config): seq<Byte> {
    Zeros(8) + (c.handler + Zeros(12))
  }

  function MediaItems(c: Config): seq<Item>
    requires c.Fits()
  {
    [Named("mdhd", Versioned(c.versions.mdhd, c.timescale)), Named("hdlr", Handler(c)),
     Named("minf", Pack([Named("stbl", Pack([Named("stsd", Stsd(c))]))]))]
  }

  function TrackItems(c: Config): seq<Item>
    requires c.Fits()
  {
    [Named("tkhd", Versioned(c.versions.tkhd, c.id)), Named("mdia", Pack(MediaItems(c)))]
  }

  function Trex(c: Config): seq<Byte>
    requires c.Fits()
  {
    Print32(c.versions.trex * 0x100_0000) + (Print32(c.owner) + (Print32(c.description) + (Print32(c.duration)
    + (Print32(c.size) + Zeros(4)))))
  }

  function MovieItems(c: Config): seq<Item>
    requires c.Fits()
  {
    [Named("trak", Pack(TrackItems(c))), Named("mvex", Pack([Named("trex", Trex(c))]))]
  }

  lemma TrexRead(bytes: seq<Byte>, trex: Box, c: Config)
    requires c.Fits() && Carries(bytes, trex, Trex(c))
    ensures FullHeader(bytes, trex) == Ok(Full(c.versions.trex, 0))
    ensures U32(bytes, trex.data + 4, trex.end) == Ok(c.owner)
              && U32(bytes, trex.data + 8, trex.end) == Ok(c.description)
    ensures U32(bytes, trex.data + 12, trex.end) == Ok(c.duration) && U32(bytes, trex.data + 16, trex.end) == Ok(c.size)
  {
    hide Print32, HoldsAt, U32, FullHeader;
    var at := trex.data;
    var sizes := Print32(c.size) + Zeros(4);
    var durations := Print32(c.duration) + sizes;
    var descriptions := Print32(c.description) + durations;
    FullRead(bytes, trex, c.versions.trex, 0, Print32(c.owner) + descriptions);
    HoldsSplit(bytes, at + 4, Print32(c.owner), descriptions);
    HoldsSplit(bytes, at + 8, Print32(c.description), durations);
    HoldsSplit(bytes, at + 12, Print32(c.duration), sizes);
    HoldsSplit(bytes, at + 16, Print32(c.size), Zeros(4));
    WordRead(bytes, at + 4, trex.end, c.owner);
    WordRead(bytes, at + 8, trex.end, c.description);
    WordRead(bytes, at + 12, trex.end, c.duration);
    WordRead(bytes, at + 16, trex.end, c.size);
  }

  lemma HandlerRead(bytes: seq<Byte>, handler: Box, c: Config)
    requires |c.handler| == 4 && Carries(bytes, handler, Handler(c))
    ensures Sub(bytes, handler.data + 8, handler.data + 12) == c.handler
  {
    HoldsSplit(bytes, handler.data, Zeros(8), c.handler + Zeros(12));
    HoldsSplit(bytes, handler.data + 8, c.handler, Zeros(12));
  }

  lemma MediaOnly(c: Config)
    requires c.Fits()
    ensures var items := MediaItems(c); Writable(items) && Only(items, 0) && Only(items, 1) && Only(items, 2)
  {
    hide FourCC;
    Differ("mdhd", "hdlr", 0);
    Differ("mdhd", "minf", 1);
    Differ("hdlr", "minf", 0);
    NameLengths("mdhd", "hdlr", "minf");
  }

  lemma TrackOnly(c: Config)
    requires c.Fits()
    ensures Writable(TrackItems(c)) && Only(TrackItems(c), 0) && Only(TrackItems(c), 1)
    ensures Writable(MovieItems(c)) && Only(MovieItems(c), 0) && Only(MovieItems(c), 1)
  {
    hide FourCC;
    Differ("tkhd", "mdia", 0);
    Differ("trak", "mvex", 0);
    NameLengths("tkhd", "mdia", "trak");
    NameLengths("mvex", "trak", "trak");
  }

  /** The media box: handler, time scale and description. */
  lemma MediaRead(bytes: seq<Byte>, media: Box, c: Config, rate: nat)
    requires c.Fits() && Carries(bytes, media, Pack(MediaItems(c))) && |bytes| <= MAX_BYTES
    ensures var handler := Child(bytes, media, FourCC("hdlr"));
            handler.Ok? && Sub(bytes, handler.value.data + 8, handler.value.data + 12) == c.handler
    ensures var mdhd := Child(bytes, media, FourCC("mdhd"));
            mdhd.Ok? && VersionedField(bytes, mdhd.value) == if c.versions.mdhd <= 1 then Ok(c.timescale) else Invalid
    ensures var minf := Child(bytes, media, FourCC("minf"));
            minf.Ok? && var stbl := Child(bytes, minf.value, FourCC("stbl"));
            stbl.Ok? && ReadDescription(bytes, stbl.value, rate)
                == if c.GoodDescription(rate) then Ok(c.asc) else Invalid
  {
    hide HoldsAt, Pack, Stsd, Handler, Versioned, VersionedField, Child, ReadDescription, Only, Sub;
    hide Config.GoodDescription;
    var items := MediaItems(c);
    MediaOnly(c);
    ChildRead(bytes, media, items, 0);
    ChildRead(bytes, media, items, 1);
    ChildRead(bytes, media, items, 2);
    VersionedRead(bytes, Child(bytes, media, FourCC("mdhd")).value, c.versions.mdhd, c.timescale);
    HandlerRead(bytes, Child(bytes, media, FourCC("hdlr")).value, c);
    var stbl := [Named("stbl", Pack([Named("stsd", Stsd(c))]))];
    SingleOnly(stbl[0]);
    SingleOnly(Named("stsd", Stsd(c)));
    ChildRead(bytes, Child(bytes, media, FourCC("minf")).value, stbl, 0);
    DescriptionRead(bytes, Child(bytes, Child(bytes, media, FourCC("minf")).value, FourCC("stbl")).value, c, rate);
  }

  /** A written movie box is accepted exactly when all its fields are as demanded, and then gives its track. */
  lemma TrackRead(bytes: seq<Byte>, top: seq<Box>, movie: Box, c: Config, rate: nat)
    requires c.Fits() && |bytes| <= MAX_BYTES && (forall box | box in top :: Inside(box, |bytes|))
    requires One(top, FourCC("ftyp")).Ok? && One(top, FourCC("moov")) == Ok(movie)
    requires Carries(bytes, movie, Pack(MovieItems(c)))
    ensures ReadTrack(bytes, top, rate) == if c.Accepted(rate) then Ok(c.Track()) else Invalid
  {
    hide HoldsAt, Pack, Versioned, VersionedField, Child, RequestedConfig, ReadDescription, Only, Sub, One, U32;
    hide FullHeader, Trex, MediaItems, FourCC;
    TrackOnly(c);
    ChildRead(bytes, movie, MovieItems(c), 0);
    ChildRead(bytes, movie, MovieItems(c), 1);
    var track, mvex := Child(bytes, movie, FourCC("trak")).value, Child(bytes, movie, FourCC("mvex")).value;
    ChildRead(bytes, track, TrackItems(c), 0);
    ChildRead(bytes, track, TrackItems(c), 1);
    VersionedRead(bytes, Child(bytes, track, FourCC("tkhd")).value, c.versions.tkhd, c.id);
    MediaRead(bytes, Child(bytes, track, FourCC("mdia")).value, c, rate);
    NameLengths("trex", "trex", "trex");
    var trex := [Named("trex", Trex(c))];
    SingleOnly(trex[0]);
    ChildRead(bytes, mvex, trex, 0);
    TrexRead(bytes, Child(bytes, mvex, FourCC("trex")).value, c);
  }
}
