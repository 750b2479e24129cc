/** A writer of the fragment tables of ISO/IEC 14496-12 sections 8.8.7, 8.8.8 and 8.8.12, for any version, any
    flags word and any values. The extractor accepts exactly those it should, and reads exactly their values. */
module AacTables {
  import opened Common
  import opened Bytes
  import opened Mp4Boxes
  import opened AacTrack
  import opened AacFragments
  import opened AacPrinted

  predicate Word(n: nat) {
    n < 0x1_0000_0000
  }

  /** A 32-bit field that is there or not. */
  function Optional(present: bool, value: nat): (b: seq<Byte>)
    requires Word(value)
    ensures |b| == if present then 4 else 0
  {
    if present then Print32(value) else []
  }

  function Long(present: bool, value: nat): (b: seq<Byte>)
    requires value <= MAX_SAFE
    ensures |b| == if present then 8 else 0
  {
    if present then Print32(value / 0x1_0000_0000) + Print32(value % 0x1_0000_0000) else []
  }

  lemma OptionalRead(bytes: seq<Byte>, at: nat, end: nat, present: bool, value: nat)
    requires Word(value) && HoldsAt(bytes, at, Optional(present, value)) && end <= |bytes|
    requires at + |Optional(present, value)| <= end
    ensures present ==> U32(bytes, at, end) == Ok(value) && FieldAt(bytes, at) == value
  {
    if present {
      WordRead(bytes, at, end, value);
    }
  }

  lemma LongRead(bytes: seq<Byte>, at: nat, end: nat, present: bool, value: nat)
    requires value <= MAX_SAFE && HoldsAt(bytes, at, Long(present, value)) && end <= |bytes|
    requires at + |Long(present, value)| <= end
    ensures present ==> U64(bytes, at, end) == Ok(value)
  {
    hide Print32, Be32, HoldsAt;
    if present {
      var high, low := value / 0x1_0000_0000, value % 0x1_0000_0000;
      HoldsSplit(bytes, at, Print32(high), Print32(low));
      WordRead(bytes, at, end, high);
      WordRead(bytes, at + 4, end, low);
    }
  }

  // ------------------------------------------------------- from bytes to fields

  /** Where a number was read, its printed form stands. */
  lemma WordHeld(bytes: seq<Byte>, at: nat, end: nat)
    requires end <= |bytes| && U32(bytes, at, end).Ok?
    ensures HoldsAt(bytes, at, Print32(U32(bytes, at, end).value)) && at + 4 <= end
    ensures FieldAt(bytes, at) == U32(bytes, at, end).value && Word(U32(bytes, at, end).value)
  {
    NumberPrinted(bytes[at..at + 4]);
  }

  lemma LongHeld(bytes: seq<Byte>, at: nat, end: nat)
    requires end <= |bytes| && U64(bytes, at, end).Ok?
    ensures HoldsAt(bytes, at, Long(true, U64(bytes, at, end).value)) && at + 8 <= end
  {
    hide Print32, Be32, HoldsAt;
    WordHeld(bytes, at, end);
    WordHeld(bytes, at + 4, end);
    var high, low := U32(bytes, at, end).value, U32(bytes, at + 4, end).value;
    HighAndLow(high, low);
    HoldsSplit(bytes, at, Print32(high), Print32(low));
  }

  lemma HighAndLow(high: nat, low: nat)
    requires low < 0x1_0000_0000
    ensures (high * 0x1_0000_0000 + low) / 0x1_0000_0000 == high && (high * 0x1_0000_0000 + low) % 0x1_0000_0000 == low
  {
  }

  lemma NothingHeld(bytes: seq<Byte>, at: nat)
    requires at <= |bytes|
    ensures HoldsAt(bytes, at, [])
  {
  }

  /** Version and flags of a box, and its payload behind them. */
  lemma FullHeld(bytes: seq<Byte>, box: Box)
    requires Inside(box, |bytes|) && FullHeader(bytes, box).Ok?
    ensures var full := FullHeader(bytes, box).value;
            HoldsAt(bytes, box.data, Print32(full.version * 0x100_0000 + full.flags))
  {
    WordHeld(bytes, box.data, box.end);
  }

  // --------------------------------------------------------------------- tfhd

  /** A fragment header: the flags say which of the later fields are there; `more` follows them. */
  datatype HeaderFields = HeaderFields(version: nat, flags: nat, owner: nat, base: nat, description: nat,
                                       duration: nat, size: nat, sampleFlags: nat, more: seq<Byte>) {
    predicate Fits() {
      && version < 0x100 && flags < 0x100_0000 && Word(owner) && base <= MAX_SAFE && Word(description)
      && Word(duration) && Word(size) && Word(sampleFlags)
    }

    predicate Accepted(track: Track) {
      && version == 0 && !Has(flags, 0xFDFFC4) && owner == track.id && (Has(flags, 2) ==> description == 1)
      && more == []
    }

    /** What it says; what it leaves out is where the moof starts, and what the track says. */
    function Header(start: nat, track: Track): Header {
      AacFragments.Header.Header(
        if Has(flags, 1) then base else start,
        if Has(flags, 8) then duration else track.defaultDuration,
        if Has(flags, 16) then size else track.defaultSize)
    }

    function Sizes(): (b: seq<Byte>)
      requires Fits()
      ensures |b| == 4 * (Bit(flags, 8) + Bit(flags, 16) + Bit(flags, 32)) + |more|
    {
      Optional(Has(flags, 8), duration)
          + (Optional(Has(flags, 16), size) + (Optional(Has(flags, 32), sampleFlags) + more))
    }

    function Rest(): (b: seq<Byte>)
      requires Fits()
      ensures |b| == 8 * Bit(flags, 1) + 4 * Bit(flags, 2) + |Sizes()|
    {
      Long(Has(flags, 1), base) + (Optional(Has(flags, 2), description) + Sizes())
    }

    function Print(): (b: seq<Byte>)
      requires Fits()
      ensures |b| == 8 + |Rest()|
    {
      Print32(version * 0x100_0000 + flags) + (Print32(owner) + Rest())
    }
  }

  lemma SizesRead(bytes: seq<Byte>, at: nat, end: nat, h: HeaderFields)
    requires h.Fits() && HoldsAt(bytes, at, h.Sizes()) && end == at + |h.Sizes()| <= |bytes|
    ensures Has(h.flags, 8) ==> U32(bytes, at, end) == Ok(h.duration)
    ensures Has(h.flags, 16) ==> U32(bytes, at + 4 * Bit(h.flags, 8), end) == Ok(h.size)
  {
    hide HoldsAt, U32, Has, Optional;
    var f := h.flags;
    var a, b, c := Optional(Has(f, 8), h.duration), Optional(Has(f, 16), h.size), Optional(Has(f, 32), h.sampleFlags);
    HoldsSplit(bytes, at, a, b + (c + h.more));
    HoldsSplit(bytes, at + |a|, b, c + h.more);
    OptionalRead(bytes, at, end, Has(f, 8), h.duration);
    OptionalRead(bytes, at + |a|, end, Has(f, 16), h.size);
  }

  lemma RestRead(bytes: seq<Byte>, at: nat, end: nat, h: HeaderFields)
    requires h.Fits() && HoldsAt(bytes, at, h.Rest()) && end == at + |h.Rest()| <= |bytes|
    ensures Has(h.flags, 1) ==> U64(bytes, at, end) == Ok(h.base)
    ensures Has(h.flags, 2) ==> U32(bytes, at + 8 * Bit(h.flags, 1), end) == Ok(h.description)
    ensures HoldsAt(bytes, at + 8 * Bit(h.flags, 1) + 4 * Bit(h.flags, 2), h.Sizes())
  {
    hide HoldsAt, U32, U64, Has, Optional, Long, HeaderFields.Sizes;
    var a, b := Long(Has(h.flags, 1), h.base), Optional(Has(h.flags, 2), h.description);
    HoldsSplit(bytes, at, a, b + h.Sizes());
    HoldsSplit(bytes, at + |a|, b, h.Sizes());
    LongRead(bytes, at, end, Has(h.flags, 1), h.base);
    OptionalRead(bytes, at + |a|, end, Has(h.flags, 2), h.description);
  }

  /** A written fragment header is accepted exactly when its version, flags, owner and description are as
      demanded and nothing follows; it reads as its own fields, with the defaults for those left out. */
  lemma HeaderRead(bytes: seq<Byte>, tfhd: Box, h: HeaderFields, start: nat, track: Track)
    requires h.Fits() && Carries(bytes, tfhd, h.Print())
    ensures ReadHeader(bytes, tfhd, start, track) == if h.Accepted(track) then Ok(h.Header(start, track)) else Invalid
  {
    hide Print32, HoldsAt, U32, U64, FullHeader, Has, HeaderFields.Rest, HeaderFields.Sizes;
    var at := tfhd.data + 8;
    FullRead(bytes, tfhd, h.version, h.flags, Print32(h.owner) + h.Rest());
    HoldsSplit(bytes, at - 4, Print32(h.owner), h.Rest());
    WordRead(bytes, at - 4, tfhd.end, h.owner);
    RestRead(bytes, at, tfhd.end, h);
    SizesRead(bytes, at + 8 * Bit(h.flags, 1) + 4 * Bit(h.flags, 2), tfhd.end, h);
  }

  /** The fields of an accepted fragment header. */
  function HeaderOf(bytes: seq<Byte>, tfhd: Box): HeaderFields
    requires Inside(tfhd, |bytes|) && FullHeader(bytes, tfhd).Ok?
  {
    var full := FullHeader(bytes, tfhd).value;
    var f, at := full.flags, tfhd.data + 8;
    var fields := at + 8 * Bit(f, 1) + 4 * Bit(f, 2);
    HeaderFields(full.version, f, FieldAt(bytes, at - 4),
                 if Has(f, 1) && U64(bytes, at, tfhd.end).Ok? then U64(bytes, at, tfhd.end).value else 0,
                 if Has(f, 2) then FieldAt(bytes, at + 8 * Bit(f, 1)) else 1,
                 if Has(f, 8) then FieldAt(bytes, fields) else 0,
                 if Has(f, 16) then FieldAt(bytes, fields + 4 * Bit(f, 8)) else 0,
                 if Has(f, 32) then FieldAt(bytes, fields + 4 * Bit(f, 8) + 4 * Bit(f, 16)) else 0, [])
  }

  lemma OptionalHeld(bytes: seq<Byte>, at: nat, end: nat, present: bool, value: nat)
    requires end <= |bytes| && at + (if present then 4 else 0) <= end
    requires present ==> value == FieldAt(bytes, at)
    requires Word(value)
    ensures HoldsAt(bytes, at, Optional(present, value)) && (present ==> U32(bytes, at, end) == Ok(value))
  {
    if present {
      WordHeld(bytes, at, end);
    } else {
      NothingHeld(bytes, at);
    }
  }

  lemma FieldIsWord(bytes: seq<Byte>, at: nat)
    ensures Word(FieldAt(bytes, at))
  {
  }

  /** An accepted fragment header is, byte for byte, the printed form of its fields. */
  lemma HeaderPrinted(bytes: seq<Byte>, tfhd: Box, start: nat, track: Track) returns (h: HeaderFields)
    requires Inside(tfhd, |bytes|) && ReadHeader(bytes, tfhd, start, track).Ok?
    ensures h.Fits() && h.Accepted(track) && Carries(bytes, tfhd, h.Print())
    ensures ReadHeader(bytes, tfhd, start, track) == Ok(h.Header(start, track))
  {
    hide Print32, HoldsAt, U32, U64, FullHeader, Has, Optional, Long, FieldAt;
    h := HeaderOf(bytes, tfhd);
    var f, at, end := h.flags, tfhd.data + 8, tfhd.end;
    WordHeld(bytes, at - 4, end);
    FullHeld(bytes, tfhd);
    FieldIsWord(bytes, at + 8 * Bit(f, 1));
    SizesPrinted(bytes, tfhd, start, track);
    if Has(f, 1) {
      LongHeld(bytes, at, end);
    } else {
      NothingLong(bytes, at);
    }
    OptionalHeld(bytes, at + 8 * Bit(f, 1), end, Has(f, 2), h.description);
    HoldsSplit(bytes, at + 8 * Bit(f, 1), Optional(Has(f, 2), h.description), h.Sizes());
    HoldsSplit(bytes, at, Long(Has(f, 1), h.base), Optional(Has(f, 2), h.description) + h.Sizes());
    HoldsSplit(bytes, at - 4, Print32(h.owner), h.Rest());
    HoldsSplit(bytes, at - 8, Print32(h.version * 0x100_0000 + f), Print32(h.owner) + h.Rest());
    HeaderRead(bytes, tfhd, h, start, track);
  }

  lemma NothingLong(bytes: seq<Byte>, at: nat)
    requires at <= |bytes|
    ensures HoldsAt(bytes, at, Long(false, 0))
  {
  }

  lemma SizesPrinted(bytes: seq<Byte>, tfhd: Box, start: nat, track: Track)
    requires Inside(tfhd, |bytes|) && ReadHeader(bytes, tfhd, start, track).Ok?
    ensures var h := HeaderOf(bytes, tfhd);
            && h.Fits()
            && HoldsAt(bytes, tfhd.data + 8 + 8 * Bit(h.flags, 1) + 4 * Bit(h.flags, 2), h.Sizes())
            && tfhd.data + 8 + 8 * Bit(h.flags, 1) + 4 * Bit(h.flags, 2) + |h.Sizes()| == tfhd.end
  {
    hide HoldsAt, U32, U64, FullHeader, Has, Optional, FieldAt;
    var h := HeaderOf(bytes, tfhd);
    var f, at, end := h.flags, tfhd.data + 8 + 8 * Bit(h.flags, 1) + 4 * Bit(h.flags, 2), tfhd.end;
    FieldIsWord(bytes, tfhd.data + 4);
    FieldIsWord(bytes, tfhd.data + 8 + 8 * Bit(f, 1));
    FieldIsWord(bytes, at);
    FieldIsWord(bytes, at + 4 * Bit(f, 8));
    FieldIsWord(bytes, at + 4 * Bit(f, 8) + 4 * Bit(f, 16));
    var a, b, c := Optional(Has(f, 8), h.duration), Optional(Has(f, 16), h.size), Optional(Has(f, 32), h.sampleFlags);
    OptionalHeld(bytes, at, end, Has(f, 8), h.duration);
    OptionalHeld(bytes, at + |a|, end, Has(f, 16), h.size);
    OptionalHeld(bytes, at + |a| + |b|, end, Has(f, 32), h.sampleFlags);
    assert c + [] == c;
    HoldsSplit(bytes, at + |a|, b, c);
    HoldsSplit(bytes, at, a, b + c);
  }

  // --------------------------------------------------------------------- tfdt

  /** A decode time, in 64 bits for version 1 and in 32 bits otherwise; `more` follows it and is not looked at. */
  datatype ClockFields = ClockFields(version: nat, flags: nat, time: nat, more: seq<Byte>) {
    predicate Fits() {
      version < 0x100 && flags < 0x100_0000 && time <= MAX_SAFE && (version == 1 || Word(time))
    }

    predicate Accepted() {
      version <= 1 && flags == 0
    }

    function Print(): (b: seq<Byte>)
      requires Fits()
      ensures |b| == (if version == 1 then 12 else 8) + |more|
    {
      Print32(version * 0x100_0000 + flags) + (Time() + more)
    }

    function Time(): (b: seq<Byte>)
      requires Fits()
      ensures |b| == if version == 1 then 8 else 4
    {
      if version == 1 then Long(true, time) else Print32(time)
    }
  }

  lemma ClockRead(bytes: seq<Byte>, tfdt: Box, c: ClockFields)
    requires c.Fits() && Carries(bytes, tfdt, c.Print())
    ensures ReadClock(bytes, tfdt) == if c.Accepted() then Ok(c.time) else Invalid
  {
    hide Print32, HoldsAt, U32, U64, FullHeader, Long;
    FullRead(bytes, tfdt, c.version, c.flags, c.Time() + c.more);
    HoldsSplit(bytes, tfdt.data + 4, c.Time(), c.more);
    if c.version == 1 {
      LongRead(bytes, tfdt.data + 4, tfdt.end, true, c.time);
    } else {
      WordRead(bytes, tfdt.data + 4, tfdt.end, c.time);
    }
  }

  /** An accepted decode time is the printed form of its fields. */
  lemma ClockPrinted(bytes: seq<Byte>, tfdt: Box) returns (c: ClockFields)
    requires Inside(tfdt, |bytes|) && ReadClock(bytes, tfdt).Ok?
    ensures c.Fits() && c.Accepted() && Carries(bytes, tfdt, c.Print()) && ReadClock(bytes, tfdt) == Ok(c.time)
  {
    hide Print32, HoldsAt, U32, U64, FullHeader, Long, FieldAt;
    var full, time := FullHeader(bytes, tfdt).value, ReadClock(bytes, tfdt).value;
    FullHeld(bytes, tfdt);
    var at := tfdt.data + 4;
    if full.version == 1 {
      LongHeld(bytes, at, tfdt.end);
    } else {
      WordHeld(bytes, at, tfdt.end);
    }
    var next := at + if full.version == 1 then 8 else 4;
    c := ClockFields(full.version, full.flags, time, bytes[next..tfdt.end]);
    SliceHeld(bytes, next, tfdt.end);
    HoldsSplit(bytes, at, c.Time(), c.more);
    HoldsSplit(bytes, tfdt.data, Print32(c.version * 0x100_0000 + c.flags), c.Time() + c.more);
  }

  lemma SliceHeld(bytes: seq<Byte>, from: nat, to: nat)
    requires from <= to <= |bytes|
    ensures HoldsAt(bytes, from, bytes[from..to])
  {
  }

  // --------------------------------------------------------------------- trun

  /** The values of one table row; the flags of the run say which have a column. */
  datatype Row = Row(duration: nat, size: nat, flags: nat, composition: nat) {
    predicate Fits() {
      Word(duration) && Word(size) && Word(flags) && Word(composition)
    }

    function Entry(f: nat, header: Header): Entry {
      AacFragments.Entry.Entry(if Has(f, 0x100) then duration else header.duration,
          if Has(f, 0x200) then size else header.size)
    }
  }

  /** A sample run; `more` follows its table. */
  datatype RunFields = RunFields(version: nat, flags: nat, offset: int, first: nat, rows: seq<Row>, more: seq<Byte>) {
    predicate Fits() {
      version < 0x100 && flags < 0x100_0000 && Word(first) && Word(|rows|) && RowsFit(rows)
    }

    /** The offset can be written in 32 bits, in two's complement. */
    predicate InRange() {
      -0x8000_0000 <= offset < 0x8000_0000
    }

    predicate Accepted() {
      && version <= 1 && !Has(flags, 0xFFF0FA) && rows != [] && more == []
      && (Has(flags, 0x800) ==> forall i | 0 <= i < |rows| :: rows[i].composition == 0)
    }

    function Run(header: Header): Run {
      AacFragments.Run.Run(if Has(flags, 1) then Some(offset) else None,
                           seq(|rows|, i requires 0 <= i < |rows| => rows[i].Entry(flags, header)))
    }

    function Print(): (b: seq<Byte>)
      requires Fits()
      ensures |b| == 8 + 4 * Bit(flags, 1) + 4 * Bit(flags, 4) + |rows| * Stride(flags) + |more|
    {
      Print32(version * 0x100_0000 + flags) + (Print32(|rows|) + (Optional(Has(flags, 1), offset % 0x1_0000_0000)
      + (Optional(Has(flags, 4), first) + (Rows(flags, rows) + more))))
    }
  }

  predicate RowsFit(rows: seq<Row>) {
    forall i | 0 <= i < |rows| :: rows[i].Fits()
  }

  function Stride(f: nat): nat {
    4 * (Bit(f, 0x100) + Bit(f, 0x200) + Bit(f, 0x400) + Bit(f, 0x800))
  }

  function RowBytes(f: nat, row: Row): (b: seq<Byte>)
    requires row.Fits()
    ensures |b| == Stride(f)
  {
    Optional(Has(f, 0x100), row.duration) + (Optional(Has(f, 0x200), row.size)
    + (Optional(Has(f, 0x400), row.flags) + Optional(Has(f, 0x800), row.composition)))
  }

  function Rows(f: nat, rows: seq<Row>): (b: seq<Byte>)
    requires RowsFit(rows)
    ensures |b| == |rows| * Stride(f)
  {
    if rows == [] then [] else
      assert RowsFit(rows[1..]);
      assert |rows| * Stride(f) == Stride(f) + (|rows| - 1) * Stride(f);
      RowBytes(f, rows[0]) + Rows(f, rows[1..])
  }

  lemma {:induction false} RowHeld(bytes: seq<Byte>, at: nat, f: nat, rows: seq<Row>, i: nat)
    requires RowsFit(rows) && HoldsAt(bytes, at, Rows(f, rows)) && i < |rows|
    ensures HoldsAt(bytes, at + i * Stride(f), RowBytes(f, rows[i]))
    decreases i
  {
    hide HoldsAt, RowBytes, Stride;
    HoldsSplit(bytes, at, RowBytes(f, rows[0]), Rows(f, rows[1..]));
    if i > 0 {
      RowHeld(bytes, at + Stride(f), f, rows[1..], i - 1);
      assert at + Stride(f) + (i - 1) * Stride(f) == at + i * Stride(f);
    }
  }

  lemma RowRead(bytes: seq<Byte>, shape: Shape, header: Header, row: Row, i: nat)
    requires row.Fits() && HoldsAt(bytes, RowAt(shape, i), RowBytes(shape.flags, row))
    ensures EntryAt(bytes, shape, header, i) == row.Entry(shape.flags, header)
    ensures NoComposition(bytes, shape, i) <==> (Has(shape.flags, 0x800) ==> row.composition == 0)
  {
    hide Print32, HoldsAt, Has, RowAt, Optional, FieldAt;
    var at, f := RowAt(shape, i), shape.flags;
    var a, b := Optional(Has(f, 0x100), row.duration), Optional(Has(f, 0x200), row.size);
    var c, d := Optional(Has(f, 0x400), row.flags), Optional(Has(f, 0x800), row.composition);
    HoldsSplit(bytes, at, a, b + (c + d));
    HoldsSplit(bytes, at + |a|, b, c + d);
    HoldsSplit(bytes, at + |a| + |b|, c, d);
    HeldFits(bytes, at, a);
    HeldFits(bytes, at + |a|, b);
    HeldFits(bytes, at + |a| + |b| + |c|, d);
    OptionalRead(bytes, at, |bytes|, Has(f, 0x100), row.duration);
    OptionalRead(bytes, at + |a|, |bytes|, Has(f, 0x200), row.size);
    OptionalRead(bytes, at + |a| + |b| + |c|, |bytes|, Has(f, 0x800), row.composition);
  }

  /** The table of a written run starts here. */
  function TableAt(run: Box, f: nat): nat {
    run.data + 8 + 4 * Bit(f, 1) + 4 * Bit(f, 4)
  }

  /** The fields of a written run, each at its place. */
  lemma RunHeld(bytes: seq<Byte>, run: Box, r: RunFields)
    requires r.Fits() && Carries(bytes, run, r.Print())
    ensures FullHeader(bytes, run) == Ok(Full(r.version, r.flags)) && U32(bytes, run.data + 4, run.end) == Ok(|r.rows|)
    ensures Has(r.flags, 1) ==> U32(bytes, run.data + 8, run.end) == Ok(r.offset % 0x1_0000_0000)
    ensures HoldsAt(bytes, TableAt(run, r.flags), Rows(r.flags, r.rows))
    ensures TableAt(run, r.flags) + |r.rows| * Stride(r.flags) + |r.more| == run.end
  {
    hide Print32, HoldsAt, U32, FullHeader, Has, Rows, Optional, Stride;
    var at, rows := run.data + 4, Rows(r.flags, r.rows);
    var o, f := Optional(Has(r.flags, 1), r.offset % 0x1_0000_0000), Optional(Has(r.flags, 4), r.first);
    FullRead(bytes, run, r.version, r.flags, Print32(|r.rows|) + (o + (f + (rows + r.more))));
    HoldsSplit(bytes, at, Print32(|r.rows|), o + (f + (rows + r.more)));
    WordRead(bytes, at, run.end, |r.rows|);
    HoldsSplit(bytes, at + 4, o, f + (rows + r.more));
    HoldsSplit(bytes, at + 4 + |o|, f, rows + r.more);
    HoldsSplit(bytes, at + 4 + |o| + |f|, rows, r.more);
    OptionalRead(bytes, at + 4, run.end, Has(r.flags, 1), r.offset % 0x1_0000_0000);
  }

  lemma ShapeRead(bytes: seq<Byte>, run: Box, r: RunFields)
    requires r.Fits() && r.InRange() && Carries(bytes, run, r.Print())
    ensures ReadShape(bytes, run) ==
            if r.version > 1 || Has(r.flags, 0xFFF0FA) || r.rows == [] then Invalid
            else Ok(Shape(r.flags, |r.rows|, if Has(r.flags, 1) then Some(r.offset) else None, TableAt(run, r.flags)))
  {
    hide HoldsAt, U32, FullHeader, Has, Rows, RunFields.Print;
    RunHeld(bytes, run, r);
  }

  lemma WrittenRows(bytes: seq<Byte>, shape: Shape, header: Header, rows: seq<Row>)
    requires RowsFit(rows) && HoldsAt(bytes, shape.table, Rows(shape.flags, rows))
    ensures forall i: nat | i < |rows| :: EntryAt(bytes, shape, header, i) == rows[i].Entry(shape.flags, header)
    ensures forall i: nat | i < |rows| ::
              NoComposition(bytes, shape, i) <==> (Has(shape.flags, 0x800) ==> rows[i].composition == 0)
  {
    hide HoldsAt, Has, Rows, RowBytes, EntryAt, NoComposition, Bit;
    forall i: nat | i < |rows|
      ensures EntryAt(bytes, shape, header, i) == rows[i].Entry(shape.flags, header)
      ensures NoComposition(bytes, shape, i) <==> (Has(shape.flags, 0x800) ==> rows[i].composition == 0)
    {
      RowHeld(bytes, shape.table, shape.flags, rows, i);
      assert RowAt(shape, i) == shape.table + i * Stride(shape.flags);
      RowRead(bytes, shape, header, rows[i], i);
    }
  }

  /** A written sample run is accepted exactly when its version and flags are as demanded, it has rows, no
      composition offset and nothing behind its table; it decodes to exactly its offset and entries. */
  lemma RunRead(bytes: seq<Byte>, run: Box, header: Header, r: RunFields)
    requires r.Fits() && r.InRange() && Carries(bytes, run, r.Print())
    ensures DecodeRun(bytes, run, header) == if r.Accepted() then Ok(r.Run(header)) else Invalid
  {
    hide HoldsAt, Has, Rows, EntryAt, NoComposition, ReadShape, RunFields.Print, TableAt, Bit;
    ShapeRead(bytes, run, r);
    RunHeld(bytes, run, r);
    if ReadShape(bytes, run).Ok? {
      var shape := ReadShape(bytes, run).value;
      WrittenRows(bytes, shape, header, r.rows);
      assert RowAt(shape, shape.count) == shape.table + |r.rows| * Stride(r.flags);
      assert seq(shape.count, i requires i >= 0 => EntryAt(bytes, shape, header, i)) == r.Run(header).entries;
    }
  }

  // ---------------------------------------------------- from bytes to a run

  /** Row i of a table, as it stands in the bytes. */
  function RowIn(bytes: seq<Byte>, shape: Shape, i: nat): Row {
    var f, at := shape.flags, RowAt(shape, i);
    Row(if Has(f, 0x100) then FieldAt(bytes, at) else 0,
        if Has(f, 0x200) then FieldAt(bytes, at + 4 * Bit(f, 0x100)) else 0,
        if Has(f, 0x400) then FieldAt(bytes, at + 4 * Bit(f, 0x100) + 4 * Bit(f, 0x200)) else 0,
        if Has(f, 0x800) then FieldAt(bytes, at + 4 * (Bit(f, 0x100) + Bit(f, 0x200) + Bit(f, 0x400))) else 0)
  }

  lemma RowPrinted(bytes: seq<Byte>, shape: Shape, i: nat)
    requires RowAt(shape, i) + Stride(shape.flags) <= |bytes|
    ensures RowIn(bytes, shape, i).Fits()
    ensures HoldsAt(bytes, RowAt(shape, i), RowBytes(shape.flags, RowIn(bytes, shape, i)))
  {
    hide Print32, HoldsAt, Has, RowAt, Optional, FieldAt, U32;
    var at, f, row := RowAt(shape, i), shape.flags, RowIn(bytes, shape, i);
    FieldIsWord(bytes, at);
    FieldIsWord(bytes, at + 4 * Bit(f, 0x100));
    FieldIsWord(bytes, at + 4 * Bit(f, 0x100) + 4 * Bit(f, 0x200));
    FieldIsWord(bytes, at + 4 * (Bit(f, 0x100) + Bit(f, 0x200) + Bit(f, 0x400)));
    var a, b := Optional(Has(f, 0x100), row.duration), Optional(Has(f, 0x200), row.size);
    var c, d := Optional(Has(f, 0x400), row.flags), Optional(Has(f, 0x800), row.composition);
    OptionalHeld(bytes, at, |bytes|, Has(f, 0x100), row.duration);
    OptionalHeld(bytes, at + |a|, |bytes|, Has(f, 0x200), row.size);
    OptionalHeld(bytes, at + |a| + |b|, |bytes|, Has(f, 0x400), row.flags);
    OptionalHeld(bytes, at + |a| + |b| + |c|, |bytes|, Has(f, 0x800), row.composition);
    HoldsSplit(bytes, at + |a| + |b|, c, d);
    HoldsSplit(bytes, at + |a|, b, c + d);
    HoldsSplit(bytes, at, a, b + (c + d));
  }

  /** The rows from `i` on. */
  lemma {:induction false} RowsPrinted(bytes: seq<Byte>, shape: Shape, rows: seq<Row>, i: nat)
    requires i <= |rows| && RowsFit(rows) && RowAt(shape, |rows|) <= |bytes|
    requires forall k: nat | k < |rows| :: rows[k] == RowIn(bytes, shape, k)
    ensures HoldsAt(bytes, RowAt(shape, i), Rows(shape.flags, rows[i..]))
    decreases |rows| - i
  {
    hide HoldsAt, RowBytes, RowIn, Bit;
    RowsFitIn(shape, |rows|, i);
    if i == |rows| {
      NothingHeld(bytes, RowAt(shape, i));
    } else {
      RowsPrinted(bytes, shape, rows, i + 1);
      RowPrinted(bytes, shape, i);
      assert rows[i..][0] == rows[i] && rows[i..][1..] == rows[i + 1..];
      HoldsSplit(bytes, RowAt(shape, i), RowBytes(shape.flags, rows[i]), Rows(shape.flags, rows[i + 1..]));
    }
  }

  lemma RowsFitIn(shape: Shape, count: nat, i: nat)
    requires i <= count
    ensures RowAt(shape, i) <= RowAt(shape, count)
    ensures i < count ==> RowAt(shape, i) + Stride(shape.flags) == RowAt(shape, i + 1) <= RowAt(shape, count)
  {
    var stride := Stride(shape.flags);
    assert shape.Stride() == stride;
    hide Bit, Stride;
    Multiples(stride, i, count);
  }

  lemma Multiples(stride: nat, i: nat, count: nat)
    requires i <= count
    ensures i * stride <= count * stride
    ensures i < count ==> i * stride + stride == (i + 1) * stride <= count * stride
  {
    assert count * stride == i * stride + (count - i) * stride;
    if i < count {
      assert count * stride == (i + 1) * stride + (count - i - 1) * stride;
    }
  }

  /** The fields of a run whose fixed part is `shape`. */
  function RunOf(bytes: seq<Byte>, run: Box, version: nat, shape: Shape): RunFields {
    RunFields(version, shape.flags, if shape.offset.Some? then shape.offset.value else 0,
              if Has(shape.flags, 4) then FieldAt(bytes, run.data + 8 + 4 * Bit(shape.flags, 1)) else 0,
              seq(shape.count, i requires i >= 0 => RowIn(bytes, shape, i)), [])
  }

  lemma OffsetWord(n: nat)
    requires n < 0x1_0000_0000
    ensures Signed32(n) % 0x1_0000_0000 == n && -0x8000_0000 <= Signed32(n) < 0x8000_0000
  {
  }

  /** The fixed part of an accepted run. */
  lemma ShapePrinted(bytes: seq<Byte>, run: Box, header: Header, shape: Shape, version: nat)
    requires Inside(run, |bytes|) && DecodeRun(bytes, run, header).Ok? && ReadShape(bytes, run) == Ok(shape)
    requires version == FullHeader(bytes, run).value.version
    ensures var r := RunOf(bytes, run, version, shape);
            && r.Fits() && r.InRange() && shape.table == TableAt(run, shape.flags)
            && RowAt(shape, |r.rows|) == run.end && |r.rows| == shape.count && version <= 1
    ensures var r := RunOf(bytes, run, version, shape);
            && HoldsAt(bytes, run.data, Print32(version * 0x100_0000 + shape.flags))
            && HoldsAt(bytes, run.data + 4, Print32(|r.rows|))
            && HoldsAt(bytes, run.data + 8, Optional(Has(shape.flags, 1), r.offset % 0x1_0000_0000))
            && HoldsAt(bytes, run.data + 8 + 4 * Bit(shape.flags, 1), Optional(Has(shape.flags, 4), r.first))
  {
    hide Print32, HoldsAt, Has, Optional, U32, FullHeader, FieldAt, RowIn, RowAt;
    var r := RunOf(bytes, run, version, shape);
    var f := shape.flags;
    FullHeld(bytes, run);
    WordHeld(bytes, run.data + 4, run.end);
    RowStart(shape, shape.count);
    if Has(f, 1) {
      WordHeld(bytes, run.data + 8, run.end);
      OffsetWord(U32(bytes, run.data + 8, run.end).value);
    }
    FieldIsWord(bytes, run.data + 8 + 4 * Bit(f, 1));
    OptionalHeld(bytes, run.data + 8, run.end, Has(f, 1), r.offset % 0x1_0000_0000);
    OptionalHeld(bytes, run.data + 8 + 4 * Bit(f, 1), run.end, Has(f, 4), r.first);
    forall i: nat | i < shape.count
      ensures r.rows[i].Fits()
    {
      RowsFitIn(shape, shape.count, i);
      RowPrinted(bytes, shape, i);
    }
  }

  lemma RowStart(shape: Shape, i: nat)
    ensures shape.table <= RowAt(shape, i)
  {
  }

  /** An accepted sample run is, byte for byte, the printed form of its fields. */
  lemma RunPrinted(bytes: seq<Byte>, run: Box, header: Header) returns (r: RunFields)
    requires Inside(run, |bytes|) && DecodeRun(bytes, run, header).Ok?
    ensures r.Fits() && r.InRange() && r.Accepted() && Carries(bytes, run, r.Print())
    ensures DecodeRun(bytes, run, header) == Ok(r.Run(header))
  {
    hide Print32, HoldsAt, Has, Optional, U32, FullHeader, FieldAt, RowIn, Rows, NoComposition, EntryAt, Signed32;
    var shape, version := ReadShape(bytes, run).value, FullHeader(bytes, run).value.version;
    r := RunOf(bytes, run, version, shape);
    var f := shape.flags;
    ShapePrinted(bytes, run, header, shape, version);
    RowsPrinted(bytes, shape, r.rows, 0);
    assert r.rows[0..] == r.rows;
    var o, first := Optional(Has(f, 1), r.offset % 0x1_0000_0000), Optional(Has(f, 4), r.first);
    var rows := Rows(f, r.rows);
    assert rows + [] == rows;
    HoldsSplit(bytes, run.data + 8 + |o|, first, rows);
    HoldsSplit(bytes, run.data + 8, o, first + rows);
    HoldsSplit(bytes, run.data + 4, Print32(|r.rows|), o + (first + rows));
    HoldsSplit(bytes, run.data, Print32(version * 0x100_0000 + f), Print32(|r.rows|) + (o + (first + rows)));
    assert Carries(bytes, run, r.Print());
    RunRead(bytes, run, header, r);
  }
}
