/** The diagnostics ring (`RollingWriter`): a bounded ring of files, rotation, records torn by
    process death, and the repair that the next start makes. The pure functions are the
    specification; the class performs the same steps in place; the theorems at the end hold
    over every run of starts, records, torn records and kills. */
module RollingLog {
  import opened Common
  import opened Bytes

  const MAX_RECORD: nat := 8192
  const NEWLINE: Byte := 10

  type Line = seq<Byte>

  datatype Slot = Absent | File(content: seq<Byte>, modified: nat) {
    function Content(): seq<Byte> {
      if File? then content else []
    }

    /** `modified().ok()`: a missing file sorts before every file. */
    function Key(): int {
      if File? then modified else -1
    }
  }

  /** The slot files, and the time stamped on the last change: each change takes a later stamp. */
  datatype Disk = Disk(slots: seq<Slot>, now: nat) {
    function Write(i: nat, content: seq<Byte>): Disk
      requires i < |slots|
    {
      Disk(slots[i := File(content, now + 1)], now + 1)
    }
  }

  datatype Writer = Writer(index: nat, size: nat)

  // ----------------------------------------------------------- specification

  /** `max_by_key` over the modification times: among equals the last index wins. */
  ghost predicate IsNewest(slots: seq<Slot>, k: nat) {
    && k < |slots|
    && (forall i | 0 <= i < |slots| :: slots[i].Key() <= slots[k].Key())
    && (forall i | k < i < |slots| :: slots[i].Key() < slots[k].Key())
  }

  function Newest(slots: seq<Slot>): (k: nat)
    requires slots != []
    ensures IsNewest(slots, k)
  {
    var last := |slots| - 1;
    if last == 0 then 0 else
      var best := Newest(slots[..last]);
      if slots[last].Key() >= slots[best].Key() then last else best
  }

  predicate Terminated(content: seq<Byte>) {
    content == [] || content[|content| - 1] == NEWLINE
  }

  /** Opening resumes the newest slot, creates it if it is missing, and ends a torn line. */
  function Opened(disk: Disk): (Disk, Writer)
    requires disk.slots != []
  {
    var i := Newest(disk.slots);
    var ready := if disk.slots[i].Absent? then disk.Write(i, []) else disk;
    var content := ready.slots[i].Content();
    if Terminated(content) then (ready, Writer(i, |content|))
    else (ready.Write(i, content + [NEWLINE]), Writer(i, |content| + 1))
  }

  /** Records that do not fit a slot, or are too long for the log, are dropped silently. */
  predicate Fits(record: Line, limit: nat) {
    |record| < MAX_RECORD && |record| < limit
  }

  predicate MustRotate(writer: Writer, record: Line, limit: nat) {
    writer.size + |record| + 1 > limit
  }

  /** `(index + 1) % slots`. */
  function NextSlot(index: nat, count: nat): (next: nat)
    requires index < count
    ensures next == if index + 1 == count then 0 else index + 1
  {
    (index + 1) % count
  }

  /** Room for the record: the slot to write to, emptied first if it is a new one. */
  function Room(disk: Disk, writer: Writer, record: Line, limit: nat): (Disk, Writer)
    requires writer.index < |disk.slots|
  {
    if !MustRotate(writer, record, limit) then (disk, writer) else
      var next := NextSlot(writer.index, |disk.slots|);
      (disk.Write(next, []), Writer(next, 0))
  }

  function Appended(disk: Disk, writer: Writer, record: Line, limit: nat): (Disk, Writer)
    requires writer.index < |disk.slots|
  {
    if !Fits(record, limit) then (disk, writer) else
      var (room, w) := Room(disk, writer, record, limit);
      (room.Write(w.index, room.slots[w.index].Content() + record + [NEWLINE]), Writer(w.index, w.size + |record| + 1))
  }

  /** Death while appending: any rotation is done, and `cut` bytes of the line reached the disk. */
  function TornAt(disk: Disk, writer: Writer, record: Line, limit: nat, cut: nat): Disk
    requires writer.index < |disk.slots| && cut <= |record|
  {
    if !Fits(record, limit) then disk else
      var (room, w) := Room(disk, writer, record, limit);
      if cut == 0 then room else room.Write(w.index, room.slots[w.index].Content() + record[..cut])
  }

  // ------------------------------------------------------------ in-place form

  class LogDirectory {
    var slots: seq<Slot>
    var now: nat

    function State(): Disk
      reads this
    {
      Disk(slots, now)
    }

    constructor (count: nat)
      ensures slots == seq(count, _ => Absent) && now == 0
    {
      slots := seq(count, _ => Absent);
      now := 0;
    }

    method Put(i: nat, content: seq<Byte>)
      requires i < |slots|
      modifies this
      ensures State() == old(State()).Write(i, content)
    {
      now := now + 1;
      slots := slots[i := File(content, now)];
    }
  }

  /** Where an append can die: never, before the new slot is emptied, or after `cut` bytes of the line. */
  datatype Fault = NoFault | RotateFails | WriteStops(cut: nat)

  class RollingWriter {
    const directory: LogDirectory
    const limit: nat
    var index: nat
    var size: nat

    predicate Valid()
      reads this, directory
    {
      index < |directory.slots| && directory.slots[index].File? && size == |directory.slots[index].content|
    }

    function State(): Writer
      reads this
    {
      Writer(index, size)
    }

    /** What the slot in use holds. */
    function Here(): seq<Byte>
      requires Valid()
      reads this, directory
    {
      directory.slots[index].content
    }

    constructor Open(directory: LogDirectory, limit: nat)
      requires directory.slots != []
      modifies directory
      ensures this.directory == directory && this.limit == limit && Valid()
      ensures (directory.State(), State()) == Opened(old(directory.State()))
      ensures IsNewest(old(directory.slots), index) && |directory.slots| == |old(directory.slots)| && size == |Here()|
      ensures var before := old(directory.slots)[index].Content();
              Here() == if before == [] || before[|before| - 1] == 10 then before else before + [10]
      ensures forall i | 0 <= i < |directory.slots| && i != index :: directory.slots[i] == old(directory.slots)[i]
    {
      this.directory := directory;
      this.limit := limit;
      index := 0;
      size := 0;
      new;
      index := FindNewest(directory.slots);
      if directory.slots[index].Absent? {
        directory.Put(index, []);
      }
      size := |directory.slots[index].content|;
      if size > 0 {
        var last := directory.slots[index].content[size - 1];
        if last != NEWLINE {
          directory.Put(index, directory.slots[index].content + [NEWLINE]);
          size := size + 1;
        }
      }
    }

    static method FindNewest(slots: seq<Slot>) returns (newest: nat)
      requires slots != []
      ensures newest == Newest(slots)
    {
      newest := 0;
      for i := 1 to |slots|
        invariant IsNewest(slots[..i], newest)
      {
        if slots[i].Key() >= slots[newest].Key() {
          newest := i;
        }
      }
      assert slots[..|slots|] == slots;
      NewestUnique(slots, newest, Newest(slots));
    }

    method Append(record: Line, fault: Fault) returns (ok: bool)
      requires Valid() && (fault.WriteStops? ==> fault.cut <= |record|)
      modifies this, directory
      ensures ok ==>
                Valid()
                && (directory.State(), State()) == Appended(old(directory.State()), old(State()), record, limit)
      ensures ok <==>
                || fault.NoFault? || |record| >= 8192 || |record| >= limit
                || (fault.RotateFails? && old(size) + |record| + 1 <= limit)
      ensures ok && (|record| >= 8192 || |record| >= limit) ==>
                directory.State() == old(directory.State()) && index == old(index)
      ensures ok && |record| < 8192 && |record| < limit ==>
                && |directory.slots| == |old(directory.slots)|
                && (if old(size) + |record| + 1 <= limit
                    then index == old(index) && Here() == old(Here()) + record + [10]
                    else index == (if old(index) + 1 == |directory.slots| then 0 else old(index) + 1)
                         && Here() == record + [10])
                && forall i | 0 <= i < |directory.slots| && i != index :: directory.slots[i] == old(directory.slots)[i]
      ensures !ok && fault.RotateFails? ==> directory.State() == old(directory.State())
      ensures !ok && fault.WriteStops? ==>
                directory.State() == TornAt(old(directory.State()), old(State()), record, limit, fault.cut)
    {
      if |record| >= MAX_RECORD || |record| >= limit {
        return true;
      }
      var line := record + [NEWLINE];
      if size + |line| > limit {
        if fault.RotateFails? {
          return false;
        }
        index := NextSlot(index, |directory.slots|);
        directory.Put(index, []);
        size := 0;
      }
      var content := directory.slots[index].content;
      if fault.WriteStops? {
        if fault.cut > 0 {
          directory.Put(index, content + line[..fault.cut]);
          assert line[..fault.cut] == record[..fault.cut];
        }
        return false;
      }
      assert content + line == content + record + [NEWLINE];
      directory.Put(index, content + line);
      size := size + |line|;
      return true;
    }
  }

  lemma NewestUnique(slots: seq<Slot>, j: nat, k: nat)
    requires IsNewest(slots, j) && IsNewest(slots, k)
    ensures j == k
  {
    assert slots[j].Key() == slots[k].Key();
  }

  // ------------------------------------------------------------------ reading

  function NextNewline(content: seq<Byte>): (k: nat)
    requires NEWLINE in content
    ensures k < |content| && content[k] == NEWLINE && NEWLINE !in content[..k]
  {
    if content[0] == NEWLINE then 0 else
      var k := 1 + NextNewline(content[1..]);
      assert content[..k] == [content[0]] + content[1..][..k - 1];
      k
  }

  /** A reader of the log: the newline-separated lines, an unterminated rest counting as one. */
  function Lines(content: seq<Byte>): seq<Line> {
    if content == [] then []
    else if NEWLINE !in content then [content]
    else
      var k := NextNewline(content);
      [content[..k]] + Lines(content[k + 1..])
  }

  lemma FirstNewline(content: seq<Byte>, k: nat)
    requires k < |content| && content[k] == NEWLINE && NEWLINE !in content[..k]
    ensures NEWLINE in content && NextNewline(content) == k
    ensures Lines(content) == [content[..k]] + Lines(content[k + 1..])
  {
    var j := NextNewline(content);
    assert forall i | 0 <= i < k :: content[..k][i] == content[i];
    assert forall i | 0 <= i < j :: content[..j][i] == content[i];
  }

  lemma {:induction false} LinesJoin(a: seq<Byte>, b: seq<Byte>)
    requires Terminated(a)
    ensures Lines(a + b) == Lines(a) + Lines(b)
    decreases |a|
  {
    hide Lines;
    var text := a + b;
    if a == [] {
      NoLines();
      assert text == b;
    } else {
      assert a[|a| - 1] == NEWLINE;
      var k := NextNewline(a);
      var rest := a[k + 1..];
      assert text[..k] == a[..k] && text[k + 1..] == rest + b;
      FirstNewline(a, k);
      FirstNewline(text, k);
      assert rest != [] ==> rest[|rest| - 1] == a[|a| - 1];
      LinesJoin(rest, b);
      assert [a[..k]] + (Lines(rest) + Lines(b)) == [a[..k]] + Lines(rest) + Lines(b);
    }
  }

  lemma NoLines()
    ensures Lines([]) == []
  {
  }

  lemma OneLine(record: Line)
    requires NEWLINE !in record
    ensures Lines(record + [NEWLINE]) == [record]
    ensures record != [] ==> Lines(record) == [record]
  {
    var text := record + [NEWLINE];
    assert text[..|record|] == record;
    FirstNewline(text, |record|);
    assert text[|record| + 1..] == [];
  }

  /** Ending a torn line changes nothing for the reader. */
  lemma {:induction false} RepairInvisible(content: seq<Byte>)
    requires !Terminated(content)
    ensures Lines(content + [NEWLINE]) == Lines(content)
    decreases |content|
  {
    var text := content + [NEWLINE];
    if NEWLINE !in content {
      OneLine(content);
    } else {
      var k := NextNewline(content);
      assert text[..k] == content[..k];
      FirstNewline(content, k);
      FirstNewline(text, k);
      var rest := content[k + 1..];
      assert text[k + 1..] == rest + [NEWLINE];
      assert rest != [] && rest[|rest| - 1] == content[|content| - 1];
      RepairInvisible(rest);
    }
  }

  // --------------------------------------------------------------------- runs

  datatype Event = Start | Log(record: Line) | Torn(record: Line, cut: nat) | Kill

  /** The disk, the living writer if any, the slot in use, every line accepted so far, those of them
      that rotations have discarded, and how many rotations there were. */
  datatype System = System(disk: Disk, writer: Option<Writer>, current: nat, history: seq<Line>, dropped: seq<Line>,
      rotations: nat)

  predicate Wellformed(event: Event) {
    match event
    case Log(record) => NEWLINE !in record
    case Torn(record, cut) => NEWLINE !in record && cut <= |record|
    case _ => true
  }

  /** Slots from oldest to newest. */
  function Ring(slots: seq<Slot>, current: nat): (ring: seq<Slot>)
    requires current < |slots|
    ensures |ring| == |slots| && ring[|slots| - 1] == slots[current]
  {
    slots[current + 1..] + slots[..current + 1]
  }

  function Contents(ring: seq<Slot>): seq<seq<Byte>> {
    seq(|ring|, i requires 0 <= i < |ring| => ring[i].Content())
  }

  /** The whole log: the slots concatenated from oldest to newest. */
  function Text(s: System): seq<Byte>
    requires s.current < |s.disk.slots|
  {
    Flatten(Contents(Ring(s.disk.slots, s.current)))
  }

  function Initial(count: nat): System
    requires count > 0
  {
    System(Disk(seq(count, _ => Absent), 0), None, count - 1, [], [], 0)
  }

  /** Rotation discards the oldest slot. */
  function Rotated(s: System, record: Line, limit: nat): System
    requires s.current < |s.disk.slots| && s.writer.Some? && s.writer.value.index < |s.disk.slots|
  {
    if !MustRotate(s.writer.value, record, limit) then s else
      var (disk, writer) := Room(s.disk, s.writer.value, record, limit);
      System(disk, Some(writer), writer.index, s.history, s.dropped + Lines(Ring(s.disk.slots, s.current)[0].Content()),
          s.rotations + 1)
  }

  function Step(s: System, event: Event, limit: nat): System
    requires s.current < |s.disk.slots| && Wellformed(event)
    requires s.writer.Some? ==> s.writer.value.index < |s.disk.slots|
  {
    match event
    case Start =>
      if s.writer.Some? then s else // the lock file refuses a second writer
        var (disk, writer) := Opened(s.disk);
        s.(disk := disk, writer := Some(writer), current := writer.index)
    case Log(record) =>
      if s.writer.None? || !Fits(record, limit) then s else
        var (disk, writer) := Appended(s.disk, s.writer.value, record, limit);
        Rotated(s, record, limit).(disk := disk, writer := Some(writer), history := s.history + [record])
    case Torn(record, cut) =>
      if s.writer.None? || !Fits(record, limit) then s else
        Rotated(s, record, limit).(disk := TornAt(s.disk, s.writer.value, record, limit, cut), writer := None,
                                   history := s.history + (if cut == 0 then [] else [record[..cut]]))
    case Kill => s.(writer := None)
  }

  // --------------------------------------------------------------- invariant

  /** Ages rise along the ring, missing slots first. */
  predicate Aged(ring: seq<Slot>, now: nat) {
    && (forall i, j | 0 <= i < j < |ring| :: ring[i].Key() < ring[j].Key() || (ring[i].Absent? && ring[j].Absent?))
    && (forall i | 0 <= i < |ring| :: ring[i].Key() <= now)
  }

  predicate Bounded(ring: seq<Slot>, limit: nat) {
    forall i | 0 <= i < |ring| ::
      && |ring[i].Content()| <= limit
      && (Terminated(ring[i].Content()) || (i == |ring| - 1 && |ring[i].Content()| < limit))
  }

  /** Slots closed by a rotation are nearly full. */
  predicate Full(ring: seq<Slot>, rotations: nat, limit: nat) {
    forall i | 0 <= i < |ring| - 1 && |ring| - 1 <= i + rotations :: |ring[i].Content()| > limit - MAX_RECORD
  }

  predicate Healthy(ring: seq<Slot>, now: nat, rotations: nat, limit: nat) {
    Aged(ring, now) && Bounded(ring, limit) && Full(ring, rotations, limit)
  }

  /** What the reader sees is everything accepted, less what rotations discarded. */
  predicate Reads(s: System)
    requires s.current < |s.disk.slots|
  {
    s.history == s.dropped + Lines(Text(s))
  }

  ghost predicate Invariant(s: System, count: nat, limit: nat) {
    && 0 < count == |s.disk.slots| && s.current < count
    && var ring := Ring(s.disk.slots, s.current);
    && Healthy(ring, s.disk.now, s.rotations, limit)
    && (ring[count - 1].Absent? ==> s.current == count - 1 && s.writer.None?)
    && (s.writer.Some?
        ==> s.writer.value == Writer(s.current, |ring[count - 1].Content()|) && Terminated(ring[count - 1].Content()))
    && Reads(s)
  }

  /** The newest file is the last of the ring. */
  lemma CurrentIsNewest(s: System, count: nat, limit: nat)
    requires Invariant(s, count, limit)
    ensures Newest(s.disk.slots) == s.current
  {
    var slots, c := s.disk.slots, s.current;
    var ring := Ring(slots, c);
    assert ring[count - 1] == slots[c];
    forall i | 0 <= i < count && i != c
      ensures slots[i].Key() < slots[c].Key() || (slots[i].Absent? && slots[c].Absent? && i < c)
    {
      var j := if i > c then i - c - 1 else count - c - 1 + i;
      assert ring[j] == slots[i];
    }
    NewestUnique(slots, c, Newest(slots));
  }

  /** Replacing the current slot replaces the last of the ring. */
  lemma RingUpdate(slots: seq<Slot>, c: nat, slot: Slot)
    requires c < |slots|
    ensures var ring := Ring(slots, c);
            Ring(slots[c := slot], c) == ring[..|slots| - 1] + [slot] && ring == ring[..|slots| - 1] + [slots[c]]
  {
  }

  /** Emptying the next slot drops the oldest and appends a new last. */
  lemma RingRotate(slots: seq<Slot>, c: nat, slot: Slot)
    requires c < |slots|
    ensures var next := NextSlot(c, |slots|); Ring(slots[next := slot], next) == Ring(slots, c)[1..] + [slot]
  {
    hide NextSlot;
    if c + 1 < |slots| {
      var changed := slots[c + 1 := slot];
      assert changed[c + 2..] == slots[c + 2..] && changed[..c + 2] == slots[..c + 1] + [slot];
      assert slots[c + 1..][1..] == slots[c + 2..];
      assert Ring(slots, c)[1..] == slots[c + 1..][1..] + slots[..c + 1];
    } else {
      var changed := slots[0 := slot];
      assert changed[1..] == slots[1..] && changed[..1] == [slot];
      assert Ring(slots, c) == slots;
    }
  }

  lemma TextOf(front: seq<Slot>, last: Slot)
    ensures Flatten(Contents(front + [last])) == Flatten(Contents(front)) + last.Content()
  {
    assert Contents(front + [last]) == Contents(front) + [last.Content()];
    FlattenAppend(Contents(front), [last.Content()]);
    assert Flatten([last.Content()]) == last.Content() + Flatten([]) == last.Content();
  }

  lemma {:induction false} FrontTerminated(front: seq<Slot>)
    requires forall i | 0 <= i < |front| :: Terminated(front[i].Content())
    ensures Terminated(Flatten(Contents(front)))
  {
    if front != [] {
      var n := |front| - 1;
      FrontTerminated(front[..n]);
      TextOf(front[..n], front[n]);
      assert front[..n] + [front[n]] == front;
    }
  }

  /** A newer, bounded file in last place keeps the ring healthy. */
  lemma LastReplaced(front: seq<Slot>, last: Slot, content: seq<Byte>, now: nat, rotations: nat, limit: nat)
    requires Healthy(front + [last], now, rotations, limit)
    requires |content| <= limit && (Terminated(content) || |content| < limit)
    ensures Healthy(front + [File(content, now + 1)], now + 1, rotations, limit)
  {
    var before, after := front + [last], front + [File(content, now + 1)];
    assert forall i | 0 <= i < |front| :: before[i] == after[i] == front[i];
  }

  /** Closing a nearly full slot behind the oldest one, which is dropped. */
  lemma OldestDropped(ring: seq<Slot>, now: nat, rotations: nat, limit: nat)
    requires ring != [] && Healthy(ring, now, rotations, limit)
    requires |ring[|ring| - 1].Content()| > limit - MAX_RECORD && Terminated(ring[|ring| - 1].Content())
    ensures Healthy(ring[1..] + [File([], now + 1)], now + 1, rotations + 1, limit)
  {
    var after := ring[1..] + [File([], now + 1)];
    assert forall i | 0 <= i < |ring| - 1 :: after[i] == ring[i + 1];
  }

  lemma FrontOf(ring: seq<Slot>, limit: nat)
    requires ring != [] && Bounded(ring, limit)
    ensures Terminated(Flatten(Contents(ring[..|ring| - 1])))
  {
    var front := ring[..|ring| - 1];
    assert forall i | 0 <= i < |front| :: front[i] == ring[i];
    FrontTerminated(front);
  }

  /** Lines of the whole log, split at the current slot. */
  lemma LinesAtCurrent(front: seq<Slot>, last: Slot)
    requires Terminated(Flatten(Contents(front)))
    ensures Lines(Flatten(Contents(front + [last]))) == Lines(Flatten(Contents(front))) + Lines(last.Content())
  {
    TextOf(front, last);
    LinesJoin(Flatten(Contents(front)), last.Content());
  }

  /** What a write to the current slot does to the ring, and what the reader sees of it. */
  lemma RingAfterWrite(slots: seq<Slot>, c: nat, content: seq<Byte>, added: seq<Line>, now: nat, rotations: nat,
      limit: nat)
    requires c < |slots| && Lines(content) == Lines(slots[c].Content()) + added
    requires c < |slots| && Healthy(Ring(slots, c), now, rotations, limit)
    requires |content| <= limit && (Terminated(content) || |content| < limit)
    ensures var before, after := Ring(slots, c), Ring(slots[c := File(content, now + 1)], c);
            && Healthy(after, now + 1, rotations, limit) && after[|slots| - 1] == File(content, now + 1)
            && Lines(Flatten(Contents(after))) == Lines(Flatten(Contents(before))) + added
  {
    hide Lines, Flatten, Contents, Aged, Bounded, Full, Ring, Terminated;
    var slot := File(content, now + 1);
    var front := Ring(slots, c)[..|slots| - 1];
    RingUpdate(slots, c, slot);
    FrontOf(Ring(slots, c), limit);
    LastReplaced(front, slots[c], content, now, rotations, limit);
    LinesAtCurrent(front, slots[c]);
    LinesAtCurrent(front, slot);
  }

  lemma ReadsMore(s: System, t: System, added: seq<Line>)
    requires s.current < |s.disk.slots| && t.current < |t.disk.slots| && Reads(s)
    requires t.dropped == s.dropped && t.history == s.history + added && Lines(Text(t)) == Lines(Text(s)) + added
    ensures Reads(t)
  {
    hide Lines, Text;
    assert s.dropped + (Lines(Text(s)) + added) == s.dropped + Lines(Text(s)) + added;
  }

  lemma ReadsSame(s: System, t: System)
    requires s.current < |s.disk.slots| && t.disk == s.disk && t.current == s.current && Reads(s)
    requires t.dropped == s.dropped && t.history == s.history
    ensures Reads(t)
  {
  }

  lemma ReadsLess(s: System, t: System, gone: seq<Line>)
    requires s.current < |s.disk.slots| && t.current < |t.disk.slots| && Reads(s)
    requires t.dropped == s.dropped + gone && t.history == s.history && Lines(Text(s)) == gone + Lines(Text(t))
    ensures Reads(t)
  {
    hide Lines, Text;
    assert s.dropped + (gone + Lines(Text(t))) == s.dropped + gone + Lines(Text(t));
  }

  /** A write to the current slot appends exactly the lines it adds. */
  lemma Rewrite(s: System, t: System, content: seq<Byte>, added: seq<Line>, count: nat, limit: nat)
    requires Invariant(s, count, limit)
    requires t.disk == s.disk.Write(s.current, content) && t.current == s.current
    requires t.dropped == s.dropped && t.rotations == s.rotations && t.history == s.history + added
    requires |content| <= limit && (Terminated(content) || |content| < limit)
    requires t.writer.Some? ==> t.writer.value == Writer(s.current, |content|) && Terminated(content)
    requires Lines(content) == Lines(s.disk.slots[s.current].Content()) + added
    ensures Invariant(t, count, limit)
  {
    hide Lines, Flatten, Contents, Healthy, Ring, Terminated, Reads;
    RingAfterWrite(s.disk.slots, s.current, content, added, s.disk.now, s.rotations, limit);
    ReadsMore(s, t, added);
  }

  /** Dropping the oldest slot drops exactly its lines from the front of the log. */
  lemma LinesAfterDrop(ring: seq<Slot>, now: nat)
    requires ring != [] && Terminated(ring[0].Content())
    ensures Lines(Flatten(Contents(ring)))
              == Lines(ring[0].Content()) + Lines(Flatten(Contents(ring[1..] + [File([], now)])))
  {
    hide Lines;
    assert Contents(ring) == [ring[0].Content()] + Contents(ring[1..]);
    LinesJoin(ring[0].Content(), Flatten(Contents(ring[1..])));
    TextOf(ring[1..], File([], now));
    assert Flatten(Contents(ring[1..])) + [] == Flatten(Contents(ring[1..]));
  }

  lemma RingAfterRotation(slots: seq<Slot>, c: nat, now: nat, rotations: nat, limit: nat)
    requires c < |slots| && Healthy(Ring(slots, c), now, rotations, limit)
    requires |slots[c].Content()| > limit - MAX_RECORD && Terminated(slots[c].Content())
    ensures var next := NextSlot(c, |slots|);
              var before, after := Ring(slots, c), Ring(slots[next := File([], now + 1)], next);
            && Healthy(after, now + 1, rotations + 1, limit) && after[|slots| - 1] == File([], now + 1)
            && Lines(Flatten(Contents(before))) == Lines(before[0].Content()) + Lines(Flatten(Contents(after)))
  {
    hide Lines, Flatten, Contents, Aged, Bounded, Full, Ring, Terminated, NextSlot;
    var ring := Ring(slots, c);
    RingRotate(slots, c, File([], now + 1));
    OldestTerminated(ring, now, rotations, limit);
    OldestDropped(ring, now, rotations, limit);
    LinesAfterDrop(ring, now + 1);
  }

  /** The state after a rotation, spelled out. */
  lemma RotationState(s: System, record: Line, limit: nat)
    requires s.current < |s.disk.slots| && s.writer.Some? && s.writer.value.index == s.current && Fits(record, limit)
    ensures var t := Rotated(s, record, limit);
            && t.writer.Some? && t.history == s.history && t.current == t.writer.value.index
            && (t.disk, t.writer.value) == Room(s.disk, s.writer.value, record, limit)
            && t.writer.value.size + |record| + 1 <= limit
  {
    hide Lines, Ring, NextSlot;
  }

  /** Moving on to the next slot keeps the invariant. */
  lemma Emptied(s: System, t: System, count: nat, limit: nat)
    requires Invariant(s, count, limit) && s.writer.Some? && s.writer.value.size > limit - MAX_RECORD
    requires t.current == NextSlot(s.current, count) && t.disk == s.disk.Write(t.current, [])
    requires t.writer == Some(Writer(t.current, 0)) && t.rotations == s.rotations + 1 && t.history == s.history
    requires t.dropped == s.dropped + Lines(Ring(s.disk.slots, s.current)[0].Content())
    ensures Invariant(t, count, limit)
  {
    hide Lines, Flatten, Contents, Healthy, Ring, NextSlot, Reads, Terminated;
    RingAfterRotation(s.disk.slots, s.current, s.disk.now, s.rotations, limit);
    ReadsLess(s, t, Lines(Ring(s.disk.slots, s.current)[0].Content()));
    NothingTerminated();
  }

  lemma RotationKeeps(s: System, record: Line, count: nat, limit: nat)
    requires Invariant(s, count, limit) && s.writer.Some? && Fits(record, limit)
    ensures Invariant(Rotated(s, record, limit), count, limit)
  {
    hide Lines, Ring, NextSlot, Reads, Healthy, Terminated;
    if MustRotate(s.writer.value, record, limit) {
      Emptied(s, Rotated(s, record, limit), count, limit);
    }
  }

  lemma NothingTerminated()
    ensures Terminated([])
  {
  }

  lemma OldestTerminated(ring: seq<Slot>, now: nat, rotations: nat, limit: nat)
    requires ring != [] && Healthy(ring, now, rotations, limit) && Terminated(ring[|ring| - 1].Content())
    ensures Terminated(ring[0].Content())
  {
  }

  lemma CurrentBounded(s: System, count: nat, limit: nat)
    requires Invariant(s, count, limit)
    ensures var content := s.disk.slots[s.current].Content();
              |content| <= limit && (Terminated(content) || |content| < limit)
  {
    assert Ring(s.disk.slots, s.current)[count - 1] == s.disk.slots[s.current];
  }

  lemma StartKeeps(s: System, count: nat, limit: nat)
    requires Invariant(s, count, limit) && s.writer.None?
    ensures Invariant(Step(s, Start, limit), count, limit)
  {
    hide Lines, Flatten, Contents, Healthy, Ring, Reads;
    CurrentIsNewest(s, count, limit);
    CurrentBounded(s, count, limit);
    var t := Step(s, Start, limit);
    var slot := s.disk.slots[s.current];
    if slot.Absent? {
      assert Lines([]) + [] == Lines([]);
      Rewrite(s, t, [], [], count, limit);
    } else if !Terminated(slot.content) {
      RepairInvisible(slot.content);
      assert Lines(slot.content) + [] == Lines(slot.content) && s.history + [] == s.history;
      Rewrite(s, t, slot.content + [NEWLINE], [], count, limit);
    } else {
      ReadsSame(s, t);
    }
  }

  lemma LogKeeps(s: System, record: Line, count: nat, limit: nat)
    requires Invariant(s, count, limit) && s.writer.Some? && Fits(record, limit) && NEWLINE !in record
    ensures Invariant(Step(s, Log(record), limit), count, limit)
  {
    hide Lines, Flatten, Contents, Healthy, Ring, Rotated, Reads;
    RotationState(s, record, limit);
    RotationKeeps(s, record, count, limit);
    var r, t := Rotated(s, record, limit), Step(s, Log(record), limit);
    var content := r.disk.slots[r.current].Content();
    var line := record + [NEWLINE];
    assert content + record + [NEWLINE] == content + line;
    LinesJoin(content, line);
    OneLine(record);
    Rewrite(r, t, content + line, [record], count, limit);
  }

  lemma TornKeeps(s: System, record: Line, cut: nat, count: nat, limit: nat)
    requires Invariant(s, count, limit) && s.writer.Some? && Fits(record, limit) && NEWLINE !in record
               && cut <= |record|
    ensures Invariant(Step(s, Torn(record, cut), limit), count, limit)
  {
    hide Lines, Flatten, Contents, Healthy, Ring, Rotated, Reads;
    RotationState(s, record, limit);
    RotationKeeps(s, record, count, limit);
    var r, t := Rotated(s, record, limit), Step(s, Torn(record, cut), limit);
    if cut == 0 {
      assert r.history + [] == r.history;
      ReadsSame(r, t);
    } else {
      var content, part := r.disk.slots[r.current].Content(), record[..cut];
      LinesJoin(content, part);
      OneLine(part);
      Rewrite(r, t, content + part, [part], count, limit);
    }
  }

  lemma StepKeeps(s: System, event: Event, count: nat, limit: nat)
    requires Invariant(s, count, limit) && Wellformed(event)
    ensures Invariant(Step(s, event, limit), count, limit)
  {
    hide Lines, Flatten, Contents, Healthy, Ring, Rotated, TornAt, Appended;
    match event
    case Start => if s.writer.None? { StartKeeps(s, count, limit); }
    case Log(record) => if s.writer.Some? && Fits(record, limit) { LogKeeps(s, record, count, limit); }
    case Torn(record, cut) => if s.writer.Some? && Fits(record, limit) { TornKeeps(s, record, cut, count, limit); }
    case Kill =>
  }

  lemma {:induction false} InitialHolds(count: nat, limit: nat)
    requires count > 0
    ensures Invariant(Initial(count), count, limit)
  {
    var s := Initial(count);
    var ring := Ring(s.disk.slots, s.current);
    assert forall i | 0 <= i < count :: ring[i] == Absent;
    EmptyText(ring);
  }

  lemma {:induction false} EmptyText(ring: seq<Slot>)
    requires forall i | 0 <= i < |ring| :: ring[i] == Absent
    ensures Flatten(Contents(ring)) == []
  {
    if ring != [] {
      assert Contents(ring)[1..] == Contents(ring[1..]);
      EmptyText(ring[1..]);
    }
  }

  /** In a directory that started empty, only as many slots were filled as there were rotations, and one more. */
  predicate StartedEmpty(ring: seq<Slot>, rotations: nat) {
    forall i | 0 <= i < |ring| - 1 - rotations :: ring[i].Absent?
  }

  lemma WriteKeepsEmpty(disk: Disk, c: nat, content: seq<Byte>, rotations: nat)
    requires c < |disk.slots| && StartedEmpty(Ring(disk.slots, c), rotations)
    ensures StartedEmpty(Ring(disk.Write(c, content).slots, c), rotations)
  {
    RingUpdate(disk.slots, c, File(content, disk.now + 1));
  }

  lemma RotationKeepsEmpty(s: System, record: Line, limit: nat)
    requires s.current < |s.disk.slots| && StartedEmpty(Ring(s.disk.slots, s.current), s.rotations)
    requires s.writer.Some? && s.writer.value.index == s.current
    ensures var t := Rotated(s, record, limit);
            t.current < |t.disk.slots| && StartedEmpty(Ring(t.disk.slots, t.current), t.rotations)
  {
    hide Lines, NextSlot;
    RingRotate(s.disk.slots, s.current, File([], s.disk.now + 1));
  }

  lemma StepKeepsEmpty(s: System, event: Event, count: nat, limit: nat)
    requires Invariant(s, count, limit) && Wellformed(event)
    requires StartedEmpty(Ring(s.disk.slots, s.current), s.rotations)
    ensures var t := Step(s, event, limit);
            t.current < |t.disk.slots| && StartedEmpty(Ring(t.disk.slots, t.current), t.rotations)
  {
    hide Lines, Flatten, Contents, Healthy, Reads, Ring, Rotated, StartedEmpty;
    match event
    case Start =>
      CurrentIsNewest(s, count, limit);
      var content := s.disk.slots[s.current].Content();
      WriteKeepsEmpty(s.disk, s.current, content, s.rotations);
      WriteKeepsEmpty(s.disk, s.current, content + [NEWLINE], s.rotations);
    case Log(record) =>
      if s.writer.Some? && Fits(record, limit) {
        RotationState(s, record, limit);
        RotationKeepsEmpty(s, record, limit);
        var r := Rotated(s, record, limit);
        WriteKeepsEmpty(r.disk, r.current, r.disk.slots[r.current].Content() + record + [NEWLINE], r.rotations);
      }
    case Torn(record, cut) =>
      if s.writer.Some? && Fits(record, limit) {
        RotationState(s, record, limit);
        RotationKeepsEmpty(s, record, limit);
        var r := Rotated(s, record, limit);
        WriteKeepsEmpty(r.disk, r.current, r.disk.slots[r.current].Content() + record[..cut], r.rotations);
      }
    case Kill =>
  }

  /** The system after a list of events, from an empty directory. */
  ghost function Run(events: seq<Event>, count: nat, limit: nat): (s: System)
    requires count > 0 && forall e | e in events :: Wellformed(e)
    ensures Invariant(s, count, limit) && StartedEmpty(Ring(s.disk.slots, s.current), s.rotations)
  {
    if events == [] then
      InitialHolds(count, limit);
      Initial(count)
    else
      var s := Run(events[..|events| - 1], count, limit);
      StepKeeps(s, events[|events| - 1], count, limit);
      StepKeepsEmpty(s, events[|events| - 1], count, limit);
      Step(s, events[|events| - 1], limit)
  }

  // ---------------------------------------------------------------- theorems

  /** After any run: no slot exceeds the limit, and the slots read from oldest to newest give exactly the
      most recent accepted lines, with every torn record on a line of its own. */
  lemma LogIsSuffix(events: seq<Event>, count: nat, limit: nat)
    requires count > 0 && forall e | e in events :: Wellformed(e)
    ensures var s := Run(events, count, limit);
            forall i | 0 <= i < count :: |s.disk.slots[i].Content()| <= limit
    ensures var s := Run(events, count, limit); var lines := Lines(Text(s));
            |lines| <= |s.history| && lines == s.history[|s.history| - |lines|..]
  {
    hide Lines, Flatten, Contents, Run;
    var s := Run(events, count, limit);
    SlotsBounded(s, count, limit);
    assert Reads(s);
    SuffixOf(s.dropped, Lines(Text(s)));
  }

  lemma SlotsBounded(s: System, count: nat, limit: nat)
    requires Invariant(s, count, limit)
    ensures forall i | 0 <= i < count :: |s.disk.slots[i].Content()| <= limit
  {
    hide Lines, Flatten, Contents;
    var ring := Ring(s.disk.slots, s.current);
    forall i | 0 <= i < count
      ensures |s.disk.slots[i].Content()| <= limit
    {
      var j := if i > s.current then i - s.current - 1 else count - s.current - 1 + i;
      assert ring[j] == s.disk.slots[i];
    }
  }

  lemma SuffixOf(dropped: seq<Line>, kept: seq<Line>)
    ensures (dropped + kept)[|dropped + kept| - |kept|..] == kept
  {
  }

  lemma {:induction false} RetainedBytes(ring: seq<Slot>, floor: int)
    requires forall i | 0 <= i < |ring| :: |ring[i].Content()| > floor
    ensures |Flatten(Contents(ring))| >= |ring| * (floor + 1)
  {
    if ring != [] {
      assert Contents(ring)[1..] == Contents(ring[1..]);
      RetainedBytes(ring[1..], floor);
      assert |ring| * (floor + 1) == (|ring| - 1) * (floor + 1) + (floor + 1);
    }
  }

  lemma RingIsFull(ring: seq<Slot>, now: nat, rotations: nat, limit: nat)
    requires |ring| > 1 && Healthy(ring, now, rotations, limit) && rotations >= |ring| - 1
    ensures |Flatten(Contents(ring))| > (|ring| - 1) * (limit - MAX_RECORD)
  {
    hide Aged, Bounded, Contents, Flatten;
    var n, floor := |ring| - 1, limit - MAX_RECORD;
    var front := ring[..n];
    assert forall i | 0 <= i < n :: front[i] == ring[i];
    RetainedBytes(front, floor);
    TextOf(front, ring[n]);
    assert front + [ring[n]] == ring;
    assert n * (floor + 1) == n * floor + n;
  }

  /** Once every slot exists, the ring always keeps more than (slots - 1) * (limit - 8192) bytes of the newest log. */
  lemma LogIsRetained(events: seq<Event>, count: nat, limit: nat)
    requires count > 1 && forall e | e in events :: Wellformed(e)
    requires forall slot | slot in Run(events, count, limit).disk.slots :: slot.File?
    ensures |Text(Run(events, count, limit))| > (count - 1) * (limit - 8192)
  {
    hide Lines, Flatten, Contents, Healthy;
    var s := Run(events, count, limit);
    assert Ring(s.disk.slots, s.current)[0] in s.disk.slots;
    RingIsFull(Ring(s.disk.slots, s.current), s.disk.now, s.rotations, limit);
  }

  /** While a writer lives, every record shorter than 8 KiB and than a slot is accepted and is the last line of the
      log; any other record leaves no trace. */
  lemma RecordIsReadable(events: seq<Event>, record: Line, count: nat, limit: nat)
    requires count > 0 && (forall e | e in events :: Wellformed(e)) && 10 !in record
    requires Run(events, count, limit).writer.Some?
    ensures var s, t := Run(events, count, limit), Run(events + [Log(record)], count, limit);
            if |record| < 8192 && |record| < limit then EndsWith(Lines(Text(t)), record) else t == s
  {
    hide Flatten, Contents, Lines, Healthy, Ring, NextSlot, Reads, Run, Rotated, Text;
    RunSnoc(events, Log(record), count, limit);
    if |record| < 8192 && |record| < limit {
      var s, t := Run(events, count, limit), Run(events + [Log(record)], count, limit);
      RotationState(s, record, limit);
      RotationKeeps(s, record, count, limit);
      assert Invariant(t, count, limit);
      LastLine(Rotated(s, record, limit), t, record);
    }
  }

  /** Of such a record torn by the death of the process, what reached the disk is the last line of the log. */
  lemma TornIsReadable(events: seq<Event>, record: Line, cut: nat, count: nat, limit: nat)
    requires count > 0 && (forall e | e in events :: Wellformed(e)) && 10 !in record && 0 < cut <= |record|
    requires Run(events, count, limit).writer.Some? && |record| < 8192 && |record| < limit
    ensures EndsWith(Lines(Text(Run(events + [Torn(record, cut)], count, limit))), record[..cut])
  {
    hide Flatten, Contents, Lines, Healthy, Ring, NextSlot, Reads, Run, Rotated, Text;
    RunSnoc(events, Torn(record, cut), count, limit);
    var s, t := Run(events, count, limit), Run(events + [Torn(record, cut)], count, limit);
    RotationState(s, record, limit);
    RotationKeeps(s, record, count, limit);
    assert Invariant(t, count, limit);
    LastLine(Rotated(s, record, limit), t, record[..cut]);
  }

  predicate EndsWith(lines: seq<Line>, line: Line) {
    lines != [] && lines[|lines| - 1] == line
  }

  lemma RunSnoc(events: seq<Event>, event: Event, count: nat, limit: nat)
    requires count > 0 && (forall e | e in events :: Wellformed(e)) && Wellformed(event)
    ensures Run(events + [event], count, limit) == Step(Run(events, count, limit), event, limit)
  {
    assert (events + [event])[..|events|] == events;
  }

  /** A longer history over the same discarded part ends, for the reader, with what was added. */
  lemma LastLine(s: System, t: System, record: Line)
    requires s.current < |s.disk.slots| && t.current < |t.disk.slots| && Reads(s) && Reads(t)
    requires t.dropped == s.dropped && t.history == s.history + [record]
    ensures EndsWith(Lines(Text(t)), record)
  {
    hide Lines, Text;
    var lines := Lines(Text(t));
    assert |lines| == |Lines(Text(s))| + 1;
    assert lines[|lines| - 1] == t.history[|t.history| - 1];
  }
}
