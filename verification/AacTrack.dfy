/** The one audio track of the probe's MP4: everything `extractAac` reads before its fragments. */
module AacTrack {
  import opened Common
  import opened Bytes
  import opened Mp4Boxes

  datatype Track = Track(id: nat, timescale: nat, asc: seq<Byte>, defaultDuration: nat, defaultSize: nat)

  function Select(boxes: seq<Box>, kind: Kind): (r: seq<Box>)
    ensures forall box | box in r :: box in boxes && box.kind == kind
  {
    if boxes == [] then []
    else (if boxes[0].kind == kind then [boxes[0]] else []) + Select(boxes[1..], kind)
  }

  function One(boxes: seq<Box>, kind: Kind): (r: Result<Box>)
    ensures r.Ok? ==> r.value in boxes && r.value.kind == kind
  {
    var selected := Select(boxes, kind);
    if |selected| != 1 then Invalid else Ok(selected[0])
  }

  function Child(bytes: seq<Byte>, box: Box, kind: Kind): (r: Result<Box>)
    requires Inside(box, |bytes|)
    ensures r.Ok? ==> Inside(r.value, |bytes|)
  {
    var boxes :- ParseBoxes(bytes, box.data, box.end);
    One(boxes, kind)
  }

  datatype Full = Full(version: nat, flags: nat)

  function FullHeader(bytes: seq<Byte>, box: Box): (r: Result<Full>)
    requires Inside(box, |bytes|)
    ensures r.Ok? ==> box.data + 4 <= box.end && r.value.version < 0x100 && r.value.flags < 0x100_0000
  {
    var value :- U32(bytes, box.data, box.end);
    Ok(Full(value / 0x100_0000, value % 0x100_0000))
  }

  // -------------------------------------------------------------- descriptors

  datatype Descriptor = Descriptor(tag: Byte, data: nat, end: nat)

  /** The base-128 length of a descriptor: at most `left` bytes, the last with a clear top bit. */
  function DescriptorLength(bytes: seq<Byte>, at: nat, end: nat, left: nat, length: nat := 0): (r: Result<(nat, nat)>)
    requires end <= |bytes|
    ensures r.Ok? ==> at < r.value.1 <= end
    decreases left
  {
    if left == 0 || at >= end then Invalid
    else if bytes[at] < 128 then Ok((length * 128 + bytes[at] % 128, at + 1))
    else DescriptorLength(bytes, at + 1, end, left - 1, length * 128 + bytes[at] % 128)
  }

  function DescriptorAt(bytes: seq<Byte>, at: nat, end: nat): (r: Result<Descriptor>)
    requires end <= |bytes|
    ensures r.Ok? ==> at + 2 <= r.value.data <= r.value.end <= end
  {
    if at >= end then Invalid else
      var (length, data) :- DescriptorLength(bytes, at + 1, end, 4);
      if length > 4096 || data + length > end then Invalid
      else Ok(Descriptor(bytes[at], data, data + length))
  }

  /** The loop of `descriptor`. */
  method ReadDescriptor(bytes: seq<Byte>, start: nat, end: nat) returns (r: Result<Descriptor>)
    requires end <= |bytes|
    ensures r == DescriptorAt(bytes, start, end)
  {
    var at := start;
    if at >= end {
      return Invalid;
    }
    var tag := bytes[at];
    at := at + 1;
    var length: nat := 0;
    var complete := false;
    for index := 0 to 4
      invariant start < at && !complete
      invariant DescriptorLength(bytes, start + 1, end, 4) == DescriptorLength(bytes, at, end, 4 - index, length)
    {
      if at >= end {
        return Invalid;
      }
      var byte := bytes[at];
      at := at + 1;
      length := length * 128 + byte % 128;
      if byte < 128 {
        complete := true;
        break;
      }
    }
    if !complete || length > 4096 || at + length > end {
      return Invalid;
    }
    return Ok(Descriptor(tag, at, at + length));
  }

  /** The descriptor lengths that `digits` base-128 bytes can hold. */
  function Capacity(digits: nat): (n: nat)
    requires digits <= 4
  {
    if digits == 0 then 1 else if digits == 1 then 0x80 else if digits == 2 then 0x4000
    else if digits == 3 then 0x20_0000 else 0x1000_0000
  }

  /** A length in exactly `digits` bytes, most significant first; leading zero digits are allowed. */
  function PrintLength(n: nat, digits: nat): (b: seq<Byte>)
    requires 1 <= digits <= 4 && n < Capacity(digits)
    ensures |b| == digits
  {
    if digits == 1 then [n] else
      var unit := Capacity(digits - 1);
      var top := n / unit;
      [128 + top] + PrintLength(n % unit, digits - 1)
  }

  /** One more base-128 digit in front of `low`. */
  lemma LengthDigits(top: nat, unit: nat, low: nat, rest: nat)
    requires top < 128 && 1 <= rest <= 3 && unit == Capacity(rest) && low < unit
    ensures Capacity(rest + 1) == 128 * unit && top * unit + low < Capacity(rest + 1)
    ensures PrintLength(top * unit + low, rest + 1) == [128 + top] + PrintLength(low, rest)
  {
    assert (top * unit + low) / unit == top && (top * unit + low) % unit == low;
  }

  lemma Shifted(length: nat, top: nat, unit: nat, low: nat)
    ensures (length * 128 + top) * unit + low == length * (128 * unit) + (top * unit + low)
  {
    assert (length * 128 + top) * unit == length * 128 * unit + top * unit;
  }

  lemma SplitLength(n: nat, unit: nat)
    requires unit > 0 && n < 128 * unit
    ensures n / unit < 128 && n % unit < unit && n / unit * unit + n % unit == n
  {
  }

  lemma OneDigit(n: nat)
    requires n < Capacity(1)
    ensures n < 0x80 && PrintLength(n, 1) == [n]
  {
  }

  lemma ManyDigits(digits: nat)
    requires 2 <= digits <= 4
    ensures Capacity(digits) == 128 * Capacity(digits - 1) > 0
  {
  }

  lemma ShortLength(bytes: seq<Byte>, at: nat, end: nat, left: nat, length: nat)
    requires left > 0 && at < end <= |bytes| && bytes[at] < 128
    ensures DescriptorLength(bytes, at, end, left, length) == Ok((length * Capacity(1) + bytes[at], at + 1))
    ensures PrintLength(bytes[at], 1) == [bytes[at]] && bytes[at..at + 1] == [bytes[at]]
  {
  }

  lemma LongerLength(bytes: seq<Byte>, at: nat, end: nat, left: nat, length: nat)
    requires left > 0 && at < end <= |bytes| && bytes[at] >= 128
    ensures DescriptorLength(bytes, at, end, left, length)
         == DescriptorLength(bytes, at + 1, end, left - 1, length * 128 + bytes[at] % 128)
    ensures bytes[at..at + 1] == [bytes[at]]
  {
  }

  lemma {:induction false} PrintedLengthRead(n: nat, digits: nat, bytes: seq<Byte>, at: nat, end: nat, left: nat,
      length: nat)
    requires 1 <= digits <= left && digits <= 4 && n < Capacity(digits)
    requires end <= |bytes| && at + digits <= end && HoldsAt(bytes, at, PrintLength(n, digits))
    ensures DescriptorLength(bytes, at, end, left, length) == Ok((length * Capacity(digits) + n, at + digits))
    decreases digits
  {
    hide Capacity, PrintLength, DescriptorLength, HoldsAt;
    if digits == 1 {
      OneDigit(n);
      ByteHeld(bytes, at, n);
      ShortLength(bytes, at, end, left, length);
    } else {
      var unit := Capacity(digits - 1);
      ManyDigits(digits);
      SplitLength(n, unit);
      var top, low := n / unit, n % unit;
      LengthDigits(top, unit, low, digits - 1);
      HoldsSplit(bytes, at, [128 + top], PrintLength(low, digits - 1));
      ByteHeld(bytes, at, 128 + top);
      LongerLength(bytes, at, end, left, length);
      PrintedLengthRead(low, digits - 1, bytes, at + 1, end, left - 1, length * 128 + top);
      Shifted(length, top, unit, low);
    }
  }

  /** A descriptor printed with a length field of one to four bytes reads back whole. */
  lemma PrintedDescriptorRead(tag: Byte, digits: nat, payload: seq<Byte>, bytes: seq<Byte>, at: nat, end: nat)
    requires 1 <= digits <= 4 && |payload| <= 4096 && |payload| < Capacity(digits)
    requires end <= |bytes| && at + 1 + digits + |payload| <= end
    requires HoldsAt(bytes, at, [tag] + (PrintLength(|payload|, digits) + payload))
    ensures DescriptorAt(bytes, at, end) == Ok(Descriptor(tag, at + 1 + digits, at + 1 + digits + |payload|))
    ensures HoldsAt(bytes, at + 1 + digits, payload)
  {
    hide PrintLength, DescriptorLength, Capacity, HoldsAt;
    HoldsSplit(bytes, at, [tag], PrintLength(|payload|, digits) + payload);
    HoldsSplit(bytes, at + 1, PrintLength(|payload|, digits), payload);
    ByteHeld(bytes, at, tag);
    PrintedLengthRead(|payload|, digits, bytes, at + 1, end, 4, 0);
  }

  /** An accepted length is the printed form of its value, in as many bytes as were read. */
  lemma {:induction false} ReadLengthPrinted(bytes: seq<Byte>, at: nat, end: nat, left: nat, length: nat)
    returns (digits: nat, n: nat)
    requires end <= |bytes| && left <= 4 && DescriptorLength(bytes, at, end, left, length).Ok?
    ensures 1 <= digits <= left && n < Capacity(digits)
    ensures DescriptorLength(bytes, at, end, left, length) == Ok((length * Capacity(digits) + n, at + digits))
    ensures HoldsAt(bytes, at, PrintLength(n, digits))
    decreases left
  {
    assert left > 0 && at < end;
    if bytes[at] < 128 {
      digits, n := 1, bytes[at];
      ShortLength(bytes, at, end, left, length);
    } else {
      hide Capacity, PrintLength, DescriptorLength, HoldsAt;
      var top := bytes[at] % 128;
      LongerLength(bytes, at, end, left, length);
      var rest, low := ReadLengthPrinted(bytes, at + 1, end, left - 1, length * 128 + top);
      var unit := Capacity(rest);
      digits, n := rest + 1, top * unit + low;
      LengthDigits(top, unit, low, rest);
      FirstDigit(bytes, at, top);
      HoldsSplit(bytes, at, [128 + top], PrintLength(low, rest));
      Shifted(length, top, unit, low);
    }
  }

  lemma FirstDigit(bytes: seq<Byte>, at: nat, top: nat)
    requires at < |bytes| && bytes[at] >= 128 && top == bytes[at] % 128
    ensures HoldsAt(bytes, at, [128 + top])
  {
    assert bytes[at..at + 1] == [128 + top];
  }

  /** A descriptor stands at `at`, its length written in `digits` bytes. */
  predicate DescriptorHeld(bytes: seq<Byte>, at: nat, end: nat, d: Descriptor, digits: nat) {
    && 1 <= digits <= 4 && d.data == at + 1 + digits && d.data <= d.end <= end
    && d.end - d.data <= 4096 && d.end - d.data < Capacity(digits)
    && HoldsAt(bytes, at, [d.tag] + PrintLength(d.end - d.data, digits))
  }

  /** A descriptor is read exactly where it is written, in one to four length bytes. */
  lemma DescriptorReadIff(bytes: seq<Byte>, at: nat, end: nat, d: Descriptor)
    requires end <= |bytes|
    ensures DescriptorAt(bytes, at, end) == Ok(d) <==> exists digits :: DescriptorHeld(bytes, at, end, d, digits)
  {
    hide PrintLength, Capacity, DescriptorLength;
    if DescriptorAt(bytes, at, end) == Ok(d) {
      var digits, n := ReadLengthPrinted(bytes, at + 1, end, 4, 0);
      assert bytes[at..at + 1] == [d.tag];
      HoldsSplit(bytes, at, [d.tag], PrintLength(n, digits));
      assert DescriptorHeld(bytes, at, end, d, digits);
    }
    if digits :| DescriptorHeld(bytes, at, end, d, digits) {
      HoldsSplit(bytes, at, [d.tag], PrintLength(d.end - d.data, digits));
      ByteHeld(bytes, at, d.tag);
      PrintedLengthRead(d.end - d.data, digits, bytes, at + 1, end, 4, 0);
    }
  }

  // ------------------------------------------------------------------- track

  const RATES: seq<nat> := [96000, 88200, 64000, 48000, 44100, 32000, 24000, 22050, 16000, 12000, 11025, 8000, 7350]

  /** AAC-LC, mono, 1024-sample frames, at the requested rate (ISO/IEC 14496-3 section 1.6.2.1). */
  predicate RequestedConfig(asc: seq<Byte>, rate: nat)
    requires |asc| >= 2
  {
    var index := asc[0] % 8 * 2 + asc[1] / 128;
    asc[0] / 8 == 2 && index < |RATES| && RATES[index] == rate && asc[1] / 8 % 16 == 1 && asc[1] / 4 % 2 == 0
  }

  /** The AudioSpecificConfig inside an esds box. */
  function ReadConfig(bytes: seq<Byte>, esds: Box, rate: nat): (r: Result<seq<Byte>>)
    requires Inside(esds, |bytes|)
    ensures r.Ok? ==> 2 <= |r.value| <= 8 && RequestedConfig(r.value, rate)
  {
    var full :- FullHeader(bytes, esds);
    if full.version != 0 then Invalid else
      var es :- DescriptorAt(bytes, esds.data + 4, esds.end);
      if es.tag != 3 || es.end - es.data < 3 || bytes[es.data + 2] / 32 != 0 then Invalid else
        var decoder :- DescriptorAt(bytes, es.data + 3, es.end);
        if decoder.tag != 4 || decoder.end - decoder.data < 13 || bytes[decoder.data] != 0x40
            || bytes[decoder.data + 1] / 4 != 5 then Invalid else
          var specific :- DescriptorAt(bytes, decoder.data + 13, decoder.end);
          if specific.tag != 5 || specific.end - specific.data < 2 || specific.end - specific.data > 8 then Invalid else
            var asc := bytes[specific.data..specific.end];
            if RequestedConfig(asc, rate) then Ok(asc) else Invalid
  }

  /** The sample description: exactly one mp4a entry holding one esds. */
  function ReadDescription(bytes: seq<Byte>, stbl: Box, rate: nat): Result<seq<Byte>>
    requires Inside(stbl, |bytes|)
  {
    var stsd :- Child(bytes, stbl, FourCC("stsd"));
    var full :- FullHeader(bytes, stsd);
    var entries :- U32(bytes, stsd.data + 4, stsd.end);
    if full.version != 0 || entries != 1 then Invalid else
      var list :- ParseBoxes(bytes, stsd.data + 8, stsd.end);
      var entry :- One(list, FourCC("mp4a"));
      if entry.end - entry.data < 28 then Invalid else
        var reserved :- U32(bytes, entry.data + 8, entry.end);
        if reserved != 0 then Invalid else
          var inner :- ParseBoxes(bytes, entry.data + 28, entry.end);
          var esds :- One(inner, FourCC("esds"));
          ReadConfig(bytes, esds, rate)
  }

  /** A field that lies 8 bytes later in version 1 of its box; later versions are refused. */
  function VersionedField(bytes: seq<Byte>, box: Box): Result<nat>
    requires Inside(box, |bytes|)
  {
    var full :- FullHeader(bytes, box);
    if full.version > 1 then Invalid
    else U32(bytes, box.data + (if full.version == 1 then 20 else 12), box.end)
  }

  function ReadTrack(bytes: seq<Byte>, top: seq<Box>, rate: nat): (r: Result<Track>)
    requires forall box | box in top :: Inside(box, |bytes|)
    ensures r.Ok? ==> 0 < r.value.timescale <= 1_000_000_000
  {
    var _ :- One(top, FourCC("ftyp"));
    var movie :- One(top, FourCC("moov"));
    var track :- Child(bytes, movie, FourCC("trak"));
    var tkhd :- Child(bytes, track, FourCC("tkhd"));
    var id :- VersionedField(bytes, tkhd);
    var media :- Child(bytes, track, FourCC("mdia"));
    var handler :- Child(bytes, media, FourCC("hdlr"));
    if Sub(bytes, handler.data + 8, handler.data + 12) != FourCC("soun") then Invalid else
      var mdhd :- Child(bytes, media, FourCC("mdhd"));
      var timescale :- VersionedField(bytes, mdhd);
      if timescale == 0 || timescale > 1_000_000_000 then Invalid else
        var minf :- Child(bytes, media, FourCC("minf"));
        var stbl :- Child(bytes, minf, FourCC("stbl"));
        var asc :- ReadDescription(bytes, stbl, rate);
        var mvex :- Child(bytes, movie, FourCC("mvex"));
        var trex :- Child(bytes, mvex, FourCC("trex"));
        var full :- FullHeader(bytes, trex);
        var owner :- U32(bytes, trex.data + 4, trex.end);
        var description :- U32(bytes, trex.data + 8, trex.end);
        if full.version != 0 || owner != id || description != 1 then Invalid else
          var duration :- U32(bytes, trex.data + 12, trex.end);
          var size :- U32(bytes, trex.data + 16, trex.end);
          Ok(Track(id, timescale, asc, duration, size))
  }
}
