/** A writer of the boxes `extractAac` reads: tracks, fragment headers, clocks and sample runs with every
    choice of optional fields. What is written reads back, field by field. */
module AacPrinted {
  import opened Common
  import opened Bytes
  import opened Mp4Boxes
  import opened AacTrack
  import opened AacFragments

  function Zeros(n: nat): (b: seq<Byte>)
    ensures |b| == n
  {
    seq(n, _ => 0)
  }

  // ------------------------------------------------------------ lists of boxes

  /** A box to be written, in one of the three header forms. */
  datatype Item = Item(form: Form, kind: Kind, payload: seq<Byte>) {
    function HeaderSize(): nat {
      if form == Large then 16 else 8
    }

    function Size(): nat {
      HeaderSize() + |payload|
    }

    function SizeWord(): (n: nat)
      ensures n < 0x1_0000_0000
    {
      match form case Compact => Size() % 0x1_0000_0000 case Large => 1 case OpenEnded => 0
    }

    function LargeWords(): (b: seq<Byte>)
      ensures |b| == HeaderSize() - 8
    {
      if form == Large then Print32(0) + Print32(Size() % 0x1_0000_0000) else []
    }

    function AsPiece(): Piece {
      Piece(form, kind, payload)
    }
  }

  function PackOne(item: Item): (b: seq<Byte>)
    requires |item.kind| == 4
    ensures |b| == item.Size()
  {
    Print32(item.SizeWord()) + (item.kind + (item.LargeWords() + item.payload))
  }

  /** Only a last mdat may leave its size open. */
  predicate Writable(items: seq<Item>) {
    forall i | 0 <= i < |items| ::
      |items[i].kind| == 4 && (items[i].form == OpenEnded ==> items[i].kind == MDAT && i == |items| - 1)
  }

  function Pack(items: seq<Item>): seq<Byte>
    requires Writable(items)
  {
    if items == [] then [] else
      assert Writable(items[1..]);
      PackOne(items[0]) + Pack(items[1..])
  }

  function AsPieces(items: seq<Item>): seq<Piece> {
    seq(|items|, i requires 0 <= i < |items| => items[i].AsPiece())
  }

  /** Where the boxes lie when they are written from `at` on. */
  function Places(items: seq<Item>, at: nat): (boxes: seq<Box>)
    ensures |boxes| == |items|
  {
    if items == [] then [] else
      var first := items[0];
      [Box(first.kind, at, at + first.HeaderSize(), at + first.Size())] + Places(items[1..], at + first.Size())
  }

  /** The payload of the box is exactly `payload`. */
  predicate Carries(bytes: seq<Byte>, box: Box, payload: seq<Byte>) {
    Inside(box, |bytes|) && box.end == box.data + |payload| && HoldsAt(bytes, box.data, payload)
  }

  lemma OnePrints(item: Item)
    requires |item.kind| == 4 && item.Size() <= MAX_BYTES && (item.form == OpenEnded ==> item.kind == MDAT)
    ensures item.AsPiece().Valid() && item.AsPiece().Print() == PackOne(item)
  {
    hide Print32;
  }

  lemma PiecesStep(items: seq<Item>)
    requires items != []
    ensures AsPieces(items) == [items[0].AsPiece()] + AsPieces(items[1..])
    ensures AsPieces(items)[1..] == AsPieces(items[1..])
  {
  }

  lemma PackStep(items: seq<Item>)
    requires Writable(items) && items != []
    ensures Writable(items[1..]) && Pack(items) == PackOne(items[0]) + Pack(items[1..])
  {
  }

  lemma {:induction false} PackPrints(items: seq<Item>)
    requires Writable(items) && |Pack(items)| <= MAX_BYTES
    ensures Printable(AsPieces(items)) && PrintAll(AsPieces(items)) == Pack(items)
  {
    FormsKept(items);
    if items != [] {
      PackStep(items);
      OnePrints(items[0]);
      PiecesStep(items);
      hide AsPieces, PackOne, Piece.Print, Pack, Writable;
      PackPrints(items[1..]);
    }
  }

  lemma FormsKept(items: seq<Item>)
    ensures |AsPieces(items)| == |items| && forall i | 0 <= i < |items| :: AsPieces(items)[i].form == items[i].form
  {
  }

  lemma {:induction false} SameLayout(items: seq<Item>, at: nat)
    ensures Layout(AsPieces(items), at) == Places(items, at)
  {
    if items != [] {
      PiecesStep(items);
      hide AsPieces;
      SameLayout(items[1..], at + items[0].Size());
    }
  }

  lemma OneHeld(bytes: seq<Byte>, at: nat, item: Item)
    requires |item.kind| == 4 && HoldsAt(bytes, at, PackOne(item))
    ensures HoldsAt(bytes, at + item.HeaderSize(), item.payload) && at + item.Size() <= |bytes|
  {
    hide HoldsAt, Print32;
    HeldFits(bytes, at, PackOne(item));
    HoldsSplit(bytes, at, Print32(item.SizeWord()), item.kind + (item.LargeWords() + item.payload));
    HoldsSplit(bytes, at + 4, item.kind, item.LargeWords() + item.payload);
    HoldsSplit(bytes, at + 8, item.LargeWords(), item.payload);
  }

  lemma {:induction false} PackedHeld(bytes: seq<Byte>, at: nat, items: seq<Item>, k: nat)
    requires Writable(items) && HoldsAt(bytes, at, Pack(items)) && k < |items|
    ensures Carries(bytes, Places(items, at)[k], items[k].payload) && Places(items, at)[k].kind == items[k].kind
    ensures at <= Places(items, at)[k].start && Places(items, at)[k].end <= at + |Pack(items)|
    decreases k
  {
    hide HoldsAt, PackOne;
    PackStep(items);
    HoldsSplit(bytes, at, PackOne(items[0]), Pack(items[1..]));
    if k == 0 {
      OneHeld(bytes, at, items[0]);
    } else {
      PackedHeld(bytes, at + items[0].Size(), items[1..], k - 1);
    }
  }

  lemma HeldFits(bytes: seq<Byte>, at: nat, s: seq<Byte>)
    requires HoldsAt(bytes, at, s)
    ensures at + |s| <= |bytes| && bytes[at..at + |s|] == s
  {
  }

  /** Written boxes are read as exactly those boxes. */
  lemma ListRead(bytes: seq<Byte>, at: nat, end: nat, items: seq<Item>)
    requires Writable(items) && |items| <= MAX_BOXES && |Pack(items)| <= MAX_BYTES
    requires HoldsAt(bytes, at, Pack(items)) && end == at + |Pack(items)| <= |bytes|
    ensures ParseBoxes(bytes, at, end) == Ok(Places(items, at))
  {
    hide HoldsAt, ParseBoxes, PrintAll, Layout, Places, Pack;
    PackPrints(items);
    SameLayout(items, at);
    FormsKept(items);
    PrintThenParse(AsPieces(items), bytes, at, end, 0);
  }

  /** Item k is the only one of its kind. */
  predicate Only(items: seq<Item>, k: nat) {
    k < |items| && forall i | 0 <= i < |items| && i != k :: items[i].kind != items[k].kind
  }

  lemma {:induction false} NoneSelected(items: seq<Item>, at: nat, kind: Kind)
    requires forall i | 0 <= i < |items| :: items[i].kind != kind
    ensures Select(Places(items, at), kind) == []
  {
    if items != [] {
      NoneSelected(items[1..], at + items[0].Size(), kind);
    }
  }

  lemma {:induction false} OnlySelected(items: seq<Item>, at: nat, k: nat)
    requires Only(items, k)
    ensures Select(Places(items, at), items[k].kind) == [Places(items, at)[k]]
    ensures Places(items, at)[k].kind == items[k].kind
  {
    var next := at + items[0].Size();
    if k == 0 {
      NoneSelected(items[1..], next, items[0].kind);
    } else {
      OnlySelected(items[1..], next, k - 1);
    }
  }

  /** The one box of its kind in a written list. */
  lemma OneRead(bytes: seq<Byte>, at: nat, end: nat, items: seq<Item>, k: nat)
    requires Writable(items) && |items| <= MAX_BOXES && Only(items, k)
    requires HoldsAt(bytes, at, Pack(items)) && end == at + |Pack(items)| && |bytes| <= MAX_BYTES
    ensures end <= |bytes| && ParseBoxes(bytes, at, end).Ok?
    ensures var one := One(ParseBoxes(bytes, at, end).value, items[k].kind);
              one.Ok? && Carries(bytes, one.value, items[k].payload)
  {
    hide HoldsAt, Pack, Places, ParseBoxes, Select, Only;
    HeldFits(bytes, at, Pack(items));
    ListRead(bytes, at, end, items);
    OnlyIndex(items, k);
    OnlySelected(items, at, k);
    PackedHeld(bytes, at, items, k);
  }

  /** The child of a written container. */
  lemma ChildRead(bytes: seq<Byte>, box: Box, items: seq<Item>, k: nat)
    requires Writable(items) && |items| <= MAX_BOXES && Only(items, k)
    requires Carries(bytes, box, Pack(items)) && |bytes| <= MAX_BYTES
    ensures var child := Child(bytes, box, items[k].kind); child.Ok? && Carries(bytes, child.value, items[k].payload)
  {
    hide HoldsAt, Pack, ParseBoxes, One, Only;
    OneRead(bytes, box.data, box.end, items, k);
  }

  lemma OnlyIndex(items: seq<Item>, k: nat)
    requires Only(items, k)
    ensures k < |items|
  {
  }

  /** Names that differ in a letter are different kinds. */
  lemma Differ(a: string, b: string, i: nat)
    requires |a| == |b| == 4 && i < 4 && a[i] != b[i] && a[i] < 128 as char && b[i] < 128 as char
    ensures FourCC(a) != FourCC(b)
  {
    assert FourCC(a)[i] != FourCC(b)[i];
  }

  // ------------------------------------------------------------------- fields

  /** A 32-bit field of a box, `skip` bytes into its payload. */
  lemma FieldRead(bytes: seq<Byte>, box: Box, before: seq<Byte>, value: nat, after: seq<Byte>)
    requires value < 0x1_0000_0000 && Carries(bytes, box, before + (Print32(value) + after))
    ensures U32(bytes, box.data + |before|, box.end) == Ok(value)
    ensures HoldsAt(bytes, box.data, before) && HoldsAt(bytes, box.data + |before| + 4, after)
  {
    hide Print32, Be32;
    HoldsSplit(bytes, box.data, before, Print32(value) + after);
    HoldsSplit(bytes, box.data + |before|, Print32(value), after);
    PrintedNumber(value);
  }

  lemma WordRead(bytes: seq<Byte>, at: nat, end: nat, value: nat)
    requires value < 0x1_0000_0000 && HoldsAt(bytes, at, Print32(value)) && at + 4 <= end <= |bytes|
    ensures U32(bytes, at, end) == Ok(value) && FieldAt(bytes, at) == value
  {
    hide Print32, Be32;
    PrintedNumber(value);
  }

  lemma FullRead(bytes: seq<Byte>, box: Box, version: nat, flags: nat, after: seq<Byte>)
    requires version < 0x100 && flags < 0x100_0000 && Carries(bytes, box, Print32(version * 0x100_0000 + flags) + after)
    ensures FullHeader(bytes, box) == Ok(Full(version, flags)) && HoldsAt(bytes, box.data + 4, after)
  {
    var word := version * 0x100_0000 + flags;
    assert [] + (Print32(word) + after) == Print32(word) + after;
    FieldRead(bytes, box, [], word, after);
  }

  /** A field that moves by 8 bytes in version 1. */
  function Versioned(version: nat, value: nat): seq<Byte>
    requires version < 0x100 && value < 0x1_0000_0000
  {
    Print32(version * 0x100_0000) + (Zeros(if version == 0 then 8 else 16) + (Print32(value) + Zeros(8)))
  }

  /** It is read in versions 0 and 1, and refused in all others. */
  lemma VersionedRead(bytes: seq<Byte>, box: Box, version: nat, value: nat)
    requires version < 0x100 && value < 0x1_0000_0000 && Carries(bytes, box, Versioned(version, value))
    ensures VersionedField(bytes, box) == if version <= 1 then Ok(value) else Invalid
  {
    hide Print32, HoldsAt, U32;
    var word, gap := Print32(version * 0x100_0000), Zeros(if version == 0 then 8 else 16);
    FullRead(bytes, box, version, 0, gap + (Print32(value) + Zeros(8)));
    assert word + (gap + (Print32(value) + Zeros(8))) == word + gap + (Print32(value) + Zeros(8));
    FieldRead(bytes, box, word + gap, value, Zeros(8));
  }

  function Named(name: string, payload: seq<Byte>): Item
    requires |name| == 4
  {
    Item(Compact, FourCC(name), payload)
  }

  lemma NameLengths(a: string, b: string, c: string)
    requires |a| == |b| == |c| == 4
    ensures |FourCC(a)| == |FourCC(b)| == |FourCC(c)| == 4
  {
  }

  lemma SingleOnly(item: Item)
    requires |item.kind| == 4 && item.form == Compact
    ensures Only([item], 0) && Writable([item])
  {
  }
}
