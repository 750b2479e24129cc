/** ISO/IEC 14496-12 section 4.2: splitting an interval of a file into boxes.
    The reader is `boxes` of the AAC probe. Its partner is a printer of boxes in
    each of the three header forms; the two are inverse in both directions. */
module Mp4Boxes {
  import opened Common
  import opened Bytes

  const MAX_BYTES: nat := 8 * 1024 * 1024
  const MAX_BOXES: nat := 4096

  type Kind = seq<Byte>
  const MDAT: Kind := FourCC("mdat")

  /** The bytes of a box type. */
  function FourCC(name: string): Kind {
    seq(|name|, i requires 0 <= i < |name| => if name[i] < 256 as char then name[i] as int else 0)
  }

  datatype Box = Box(kind: Kind, start: nat, data: nat, end: nat)

  predicate Inside(box: Box, end: nat) {
    box.start + 8 <= box.data <= box.end <= end
  }

  /** A list of boxes covers [at, end) without gap or overlap, and every box
      holds at least its header. */
  predicate Tiles(boxes: seq<Box>, at: nat, end: nat) {
    if boxes == [] then at == end
    else boxes[0].start == at && at + 8 <= boxes[0].data <= boxes[0].end && Tiles(boxes[1..], boxes[0].end, end)
  }

  /** The box at `at`, judged on its header alone. */
  function BoxAt(bytes: seq<Byte>, at: nat, end: nat): (r: Result<Box>)
    requires at < end <= |bytes|
    ensures r.Ok? ==> r.value.start == at && at + 8 <= r.value.data <= r.value.end <= end
  {
    var short :- U32(bytes, at, end);
    if at + 8 > end then Invalid else
      var kind := bytes[at + 4..at + 8];
      var header := if short == 1 then 16 else 8;
      var size :- if short == 1 then U64(bytes, at + 8, end) else Ok(if short == 0 then end - at else short);
      if size < header || size > MAX_BYTES || at + size > end then Invalid
      else if short == 0 && kind != MDAT then Invalid
      else Ok(Box(kind, at, at + header, at + size))
  }

  /** All boxes of [at, end), when `count` were already read. */
  function ParseBoxes(bytes: seq<Byte>, at: nat, end: nat, count: nat := 0): (r: Result<seq<Box>>)
    requires end <= |bytes|
    ensures r.Ok? && at <= end ==> Tiles(r.value, at, end)
    ensures r.Ok? ==> forall box | box in r.value :: Inside(box, end)
    decreases end - at
  {
    if at >= end then Ok([])
    else if count >= MAX_BOXES then Invalid
    else
      var box :- BoxAt(bytes, at, end);
      var rest :- ParseBoxes(bytes, box.end, end, count + 1);
      Ok([box] + rest)
  }

  /** The loop of `boxes`. */
  method Boxes(bytes: seq<Byte>, start: nat, end: nat) returns (r: Result<seq<Box>>)
    requires end <= |bytes|
    ensures r == ParseBoxes(bytes, start, end)
  {
    var result: seq<Box> := [];
    var at := start;
    hide BoxAt;
    assert forall rest: seq<Box> :: [] + rest == rest;
    while at < end
      invariant match ParseBoxes(bytes, at, end, |result|)
                case Ok(rest) => ParseBoxes(bytes, start, end) == Ok(result + rest)
                case Invalid => ParseBoxes(bytes, start, end) == Invalid
    {
      if |result| >= MAX_BOXES {
        return Invalid;
      }
      var box :- BoxAt(bytes, at, end);
      assert forall rest: seq<Box> :: result + ([box] + rest) == result + [box] + rest;
      result := result + [box];
      at := box.end;
    }
    assert result + [] == result;
    return Ok(result);
  }

  // ---------------------------------------------------------------- printing

  datatype Form = Compact | Large | OpenEnded
  datatype Piece = Piece(form: Form, kind: Kind, payload: seq<Byte>) {
    function HeaderSize(): nat {
      if form == Large then 16 else 8
    }

    predicate Valid() {
      |kind| == 4 && HeaderSize() + |payload| <= 8388608 && (form == OpenEnded ==> kind == [0x6D, 0x64, 0x61, 0x74])
    }

    /** The 32-bit size field: 1 announces a 64-bit size, 0 "to the end". */
    function SizeField(): nat
      requires Valid()
    {
      match form case Compact => 8 + |payload| case Large => 1 case OpenEnded => 0
    }

    function LargeSize(): seq<Byte>
      requires Valid()
    {
      if form == Large then Print32(0) + Print32(16 + |payload|) else []
    }

    function Print(): (b: seq<Byte>)
      requires Valid()
      ensures |b| == HeaderSize() + |payload|
    {
      Print32(SizeField()) + (kind + (LargeSize() + payload))
    }
  }

  /** A printable list: only the last box may leave its size open. */
  predicate Printable(pieces: seq<Piece>) {
    forall i | 0 <= i < |pieces| :: pieces[i].Valid() && (pieces[i].form == OpenEnded ==> i == |pieces| - 1)
  }

  function PrintAll(pieces: seq<Piece>): seq<Byte>
    requires Printable(pieces)
  {
    if pieces == [] then [] else pieces[0].Print() + PrintAll(pieces[1..])
  }

  /** Where the printed boxes lie when printing starts at `at`. */
  function Layout(pieces: seq<Piece>, at: nat): seq<Box> {
    if pieces == [] then [] else
      var p := pieces[0];
      var end := at + p.HeaderSize() + |p.payload|;
      [Box(p.kind, at, at + p.HeaderSize(), end)] + Layout(pieces[1..], end)
  }

  /** A printed box stands at `at` exactly when its fields stand one after the other. */
  lemma PrintedFields(p: Piece, bytes: seq<Byte>, at: nat)
    requires p.Valid()
    ensures HoldsAt(bytes, at, p.Print()) <==>
            && HoldsAt(bytes, at, Print32(p.SizeField())) && HoldsAt(bytes, at + 4, p.kind)
            && (p.form == Large
                ==> HoldsAt(bytes, at + 8, Print32(0)) && HoldsAt(bytes, at + 12, Print32(16 + |p.payload|)))
            && HoldsAt(bytes, at + p.HeaderSize(), p.payload)
  {
    hide Print32, HoldsAt;
    HoldsSplit(bytes, at, Print32(p.SizeField()), p.kind + (p.LargeSize() + p.payload));
    HoldsSplit(bytes, at + 4, p.kind, p.LargeSize() + p.payload);
    if p.form == Large {
      HoldsSplit(bytes, at + 8, p.LargeSize(), p.payload);
      HoldsSplit(bytes, at + 8, Print32(0), Print32(16 + |p.payload|));
    } else {
      assert p.LargeSize() + p.payload == p.payload;
    }
  }

  lemma PrintedBoxRead(p: Piece, bytes: seq<Byte>, at: nat, end: nat)
    requires p.Valid() && at + |p.Print()| <= end <= |bytes|
    requires HoldsAt(bytes, at, p.Print())
    requires p.form == OpenEnded ==> at + |p.Print()| == end
    ensures BoxAt(bytes, at, end) == Ok(Box(p.kind, at, at + p.HeaderSize(), at + |p.Print()|))
  {
    hide Print32, Be32;
    PrintedFields(p, bytes, at);
    PrintedNumber(p.SizeField());
    PrintedNumber(0);
    PrintedNumber(16 + |p.payload|);
  }

  /** Reading back a printed list gives exactly its layout. */
  lemma {:induction false} PrintThenParse(pieces: seq<Piece>, bytes: seq<Byte>, at: nat, end: nat, count: nat)
    requires Printable(pieces) && count + |pieces| <= MAX_BOXES
    requires end <= |bytes| && HoldsAt(bytes, at, PrintAll(pieces)) && at + |PrintAll(pieces)| == end
    ensures ParseBoxes(bytes, at, end, count) == Ok(Layout(pieces, at))
  {
    hide Print32, BoxAt, Be32, Piece.Print;
    if pieces != [] {
      var b := pieces[0].Print();
      var next := at + |b|;
      HoldsSplit(bytes, at, b, PrintAll(pieces[1..]));
      if pieces[0].form == OpenEnded {
        assert pieces[1..] == [];
      }
      PrintedBoxRead(pieces[0], bytes, at, end);
      PrintThenParse(pieces[1..], bytes, next, end, count + 1);
    }
  }

  lemma ReadBoxPrints(bytes: seq<Byte>, at: nat, end: nat) returns (p: Piece)
    requires at < end <= |bytes| && BoxAt(bytes, at, end).Ok?
    ensures var box := BoxAt(bytes, at, end).value;
            && p.Valid() && HoldsAt(bytes, at, p.Print()) && at + |p.Print()| == box.end
            && p.kind == box.kind && at + p.HeaderSize() == box.data && (p.form == OpenEnded ==> box.end == end)
  {
    hide Print32, Be32;
    var box := BoxAt(bytes, at, end).value;
    var short := U32(bytes, at, end).value;
    var form := if short == 1 then Large else if short == 0 then OpenEnded else Compact;
    p := Piece(form, box.kind, bytes[box.data..box.end]);
    NumberPrinted(bytes[at..at + 4]);
    if form == Large {
      NumberPrinted(bytes[at + 8..at + 12]);
      NumberPrinted(bytes[at + 12..at + 16]);
    }
    PrintedFields(p, bytes, at);
  }

  lemma NothingPrinted(pieces: seq<Piece>)
    requires Printable(pieces)
    ensures |PrintAll(pieces)| == 0 ==> pieces == []
  {
  }

  /** Every accepted interval is the printed form of the boxes read from it. */
  lemma {:induction false} ParseThenPrint(bytes: seq<Byte>, at: nat, end: nat, count: nat) returns (pieces: seq<Piece>)
    requires at <= end <= |bytes| && ParseBoxes(bytes, at, end, count).Ok? && count <= MAX_BOXES
    ensures Printable(pieces) && count + |pieces| <= MAX_BOXES
    ensures HoldsAt(bytes, at, PrintAll(pieces)) && at + |PrintAll(pieces)| == end
    ensures Layout(pieces, at) == ParseBoxes(bytes, at, end, count).value
    decreases end - at
  {
    hide Print32, BoxAt, Be32, Piece.Print;
    if at == end {
      pieces := [];
    } else {
      var first := ReadBoxPrints(bytes, at, end);
      var next := BoxAt(bytes, at, end).value.end;
      var rest := ParseThenPrint(bytes, next, end, count + 1);
      NothingPrinted(rest);
      pieces := [first] + rest;
      assert pieces[1..] == rest;
      HoldsSplit(bytes, at, first.Print(), PrintAll(rest));
    }
  }

  /** An interval is accepted exactly when it is the printed form of some bounded box list. */
  lemma AcceptedIffPrinted(bytes: seq<Byte>, at: nat, end: nat)
    requires at <= end <= |bytes|
    ensures ParseBoxes(bytes, at, end).Ok? <==>
            exists pieces :: Printable(pieces) && |pieces| <= 4096 && PrintAll(pieces) == bytes[at..end]
  {
    hide BoxAt, Piece.Print, ParseBoxes, Tiles;
    if ParseBoxes(bytes, at, end).Ok? {
      var pieces := ParseThenPrint(bytes, at, end, 0);
    }
    if pieces :| Printable(pieces) && |pieces| <= MAX_BOXES && PrintAll(pieces) == bytes[at..end] {
      PrintThenParse(pieces, bytes, at, end, 0);
    }
  }

  // ------------------------------------------------------------ consequences

  /** Tiling, stated by position: distinct boxes are disjoint and stay in the interval. */
  lemma {:induction false} TilesDisjoint(boxes: seq<Box>, at: nat, end: nat, i: nat, j: nat)
    requires Tiles(boxes, at, end) && i < j < |boxes|
    ensures at <= boxes[i].start && boxes[i].start + 8 <= boxes[i].data <= boxes[i].end <= boxes[j].start
    ensures boxes[j].start + 8 <= boxes[j].data <= boxes[j].end <= end
  {
    TilesWithin(boxes[1..], boxes[0].end, end, j - 1);
    if i > 0 {
      TilesDisjoint(boxes[1..], boxes[0].end, end, i - 1, j - 1);
    }
  }

  lemma {:induction false} TilesWithin(boxes: seq<Box>, at: nat, end: nat, i: nat)
    requires Tiles(boxes, at, end) && i < |boxes|
    ensures at <= boxes[i].start && boxes[i].start + 8 <= boxes[i].data <= boxes[i].end <= end
  {
    TilesEnd(boxes[1..], boxes[0].end, end);
    if i > 0 {
      TilesWithin(boxes[1..], boxes[0].end, end, i - 1);
    }
  }

  lemma {:induction false} TilesEnd(boxes: seq<Box>, at: nat, end: nat)
    requires Tiles(boxes, at, end)
    ensures at + 8 * |boxes| <= end
  {
    if boxes != [] {
      TilesEnd(boxes[1..], boxes[0].end, end);
    }
  }
}
