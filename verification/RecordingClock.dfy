/** One logical clock over many recorded parts (`recording-source.js`): the part list that is
    accepted, and the player that switches parts under a single time line. Times are seconds. */
module RecordingClock {
  import opened Common

  const TOLERANCE: real := 0.01
  const SHORTEST: real := 0.001
  const LONGEST: real := 604800.0
  const MAX_PARTS: nat := 10000

  function Min(a: real, b: real): real {
    if a <= b then a else b
  }

  function Max(a: real, b: real): real {
    if a >= b then a else b
  }

  function Abs(a: real): real {
    if a >= 0.0 then a else -a
  }

  predicate Finite(n: real, min: real, max: real) {
    min <= n <= max
  }

  // --------------------------------------------------------------- part lists

  datatype PartData = PartData(index: int, start: real, duration: real)

  /** A recording as received; a missing part list stands for one part of the whole duration. */
  datatype Data = Data(url: string, duration: real, parts: Option<seq<PartData>>)

  datatype Part = Part(start: real, duration: real, url: string) {
    function End(): real {
      start + duration
    }
  }

  datatype Source = Source(url: string, duration: real, parts: seq<Part>)

  function Given(data: Data): seq<PartData> {
    if data.parts.Some? then data.parts.value else [PartData(0, 0.0, data.duration)]
  }

  /** Where the parts before `i` end. */
  function EndBefore(parts: seq<PartData>, i: nat): real
    requires i <= |parts|
  {
    if i == 0 then 0.0 else parts[i - 1].start + parts[i - 1].duration
  }

  predicate GoodPart(parts: seq<PartData>, i: nat)
    requires i < |parts|
  {
    var p := parts[i];
    p.index == i && Finite(p.start, 0.0, LONGEST) && Finite(p.duration, SHORTEST, LONGEST)
        && Abs(p.start - EndBefore(parts, i)) <= TOLERANCE
  }

  predicate Acceptable(data: Data) {
    var parts := Given(data);
    && Finite(data.duration, SHORTEST, LONGEST)
    && 0 < |parts| <= MAX_PARTS
    && (forall i: nat | i < |parts| :: GoodPart(parts, i))
    && Abs(EndBefore(parts, |parts|) - data.duration) <= TOLERANCE
  }

  function Decimal(n: nat): string {
    if n < 10 then ["0123456789"[n]] else Decimal(n / 10) + ["0123456789"[n % 10]]
  }

  function Built(data: Data): Source {
    var parts := Given(data);
    Source(data.url, data.duration, seq(|parts|, i requires 0 <= i < |parts| =>
      Part(parts[i].start, parts[i].duration, if data.parts.Some? then data.url + "/part/" + Decimal(i) else data.url)))
  }

  /** Reading decimal digits back. */
  function Number(digits: string): nat {
    if digits == "" || !('0' <= digits[|digits| - 1] <= '9') then 0
    else 10 * Number(digits[..|digits| - 1]) + (digits[|digits| - 1] as int - '0' as int)
  }

  /** The number in a part's url is its index in decimal, without leading zeros. */
  lemma {:induction false} DecimalRead(n: nat)
    ensures Number(Decimal(n)) == n && Decimal(n) != "" && (forall c | c in Decimal(n) :: '0' <= c <= '9')
    ensures n > 0 ==> Decimal(n)[0] != '0'
  {
    Digits();
    if n < 10 {
      assert Decimal(n)[..0] == "";
    } else {
      DecimalRead(n / 10);
      assert Decimal(n)[..|Decimal(n)| - 1] == Decimal(n / 10);
    }
  }

  lemma Digits()
    ensures forall d: nat | d < 10 :: "0123456789"[d] as int == '0' as int + d
  {
  }

  /** Part i is numbered i, in range, and starts within 10 ms of where the part before it ends. */
  predicate Joins(parts: seq<PartData>, i: nat)
    requires i < |parts|
  {
    && parts[i].index == i && 0.0 <= parts[i].start <= 604800.0 && 0.001 <= parts[i].duration <= 604800.0
    && var end := if i == 0 then 0.0 else parts[i - 1].start + parts[i - 1].duration;
       -0.01 <= parts[i].start - end <= 0.01
  }

  /** Parts that follow one another within 10 ms, from 0 to the declared duration. */
  predicate Follows(parts: seq<PartData>, duration: real) {
    && 0 < |parts| <= 10000 && 0.001 <= duration <= 604800.0
    && (forall i: nat | i < |parts| :: Joins(parts, i))
    && -0.01 <= parts[|parts| - 1].start + parts[|parts| - 1].duration - duration <= 0.01
  }

  /** The source of a recording: its parts as given, part i under its own url. */
  predicate MadeFrom(s: Source, data: Data) {
    && s.url == data.url && s.duration == data.duration
    && match data.parts
       case None => s.parts == [Part(0.0, data.duration, data.url)]
       case Some(parts) =>
         |s.parts| == |parts| && forall i: nat | i < |parts| ::
           s.parts[i] == Part(parts[i].start, parts[i].duration, data.url + "/part/" + Decimal(i))
  }

  lemma AcceptableIff(data: Data)
    ensures Acceptable(data) <==>
            Follows(if data.parts.Some? then data.parts.value else [PartData(0, 0.0, data.duration)], data.duration)
  {
    var parts := Given(data);
    forall i: nat | i < |parts|
      ensures GoodPart(parts, i) <==> Joins(parts, i)
    {
    }
    hide GoodPart, Joins;
  }

  lemma BuiltIsMade(data: Data)
    ensures MadeFrom(Built(data), data)
  {
    hide Decimal;
    if data.parts.None? {
      assert Built(data).parts == [Part(0.0, data.duration, data.url)];
    }
  }

  /** `recordingSource`: a list is taken exactly when every part follows the one before it within the tolerance. */
  method RecordingSource(data: Data, allowed: string -> bool) returns (r: Option<Source>)
    ensures r == if allowed(data.url) && Acceptable(data) then Some(Built(data)) else None
    ensures r.Some? <==>
            allowed(data.url)
            && Follows(if data.parts.Some? then data.parts.value else [PartData(0, 0.0, data.duration)], data.duration)
    ensures r.Some? ==> MadeFrom(r.value, data)
  {
    AcceptableIff(data);
    BuiltIsMade(data);
    hide Follows, MadeFrom, Decimal;
    if !allowed(data.url) || !Finite(data.duration, SHORTEST, LONGEST) {
      return None;
    }
    if data.parts.Some? && (data.parts.value == [] || |data.parts.value| > MAX_PARTS) {
      return None;
    }
    var parts := Given(data);
    var end := 0.0;
    for i := 0 to |parts|
      invariant end == EndBefore(parts, i)
      invariant forall j: nat | j < i :: GoodPart(parts, j)
    {
      var p := parts[i];
      if p.index != i || !Finite(p.start, 0.0, LONGEST) || !Finite(p.duration, SHORTEST, LONGEST)
          || Abs(p.start - end) > TOLERANCE {
        assert !GoodPart(parts, i);
        return None;
      }
      end := p.start + p.duration;
    }
    if Abs(end - data.duration) > TOLERANCE {
      return None;
    }
    return Some(Built(data));
  }

  /** The sources `RecordingSource` can return, in terms of the parts alone. */
  predicate Valid(s: Source) {
    && s.parts != [] && SHORTEST <= s.duration <= LONGEST
    && (forall i | 0 <= i < |s.parts| :: s.parts[i].start >= 0.0 && s.parts[i].duration >= SHORTEST)
    && s.parts[0].start <= TOLERANCE
    && (forall i | 0 < i < |s.parts| :: Abs(s.parts[i].start - s.parts[i - 1].End()) <= TOLERANCE)
    && Abs(s.parts[|s.parts| - 1].End() - s.duration) <= TOLERANCE
  }

  lemma BuiltIsValid(data: Data)
    requires Acceptable(data)
    ensures Valid(Built(data))
  {
    hide Decimal, Abs, Given;
    var parts, built := Given(data), Built(data).parts;
    assert |built| == |parts|;
    assert forall i | 0 <= i < |parts| :: built[i].start == parts[i].start && built[i].duration == parts[i].duration;
    assert GoodPart(parts, 0);
    FirstStart(parts[0].start);
    forall i: nat | i < |parts|
      ensures built[i].start >= 0.0 && built[i].duration >= SHORTEST
      ensures i > 0 ==> Abs(built[i].start - built[i - 1].End()) <= TOLERANCE
    {
      assert GoodPart(parts, i);
    }
  }

  lemma FirstStart(start: real)
    requires Abs(start - 0.0) <= TOLERANCE
    ensures start <= TOLERANCE
  {
  }

  function Sum(parts: seq<Part>): real {
    if parts == [] then 0.0 else Sum(parts[..|parts| - 1]) + parts[|parts| - 1].duration
  }

  /** Each joint adds at most one tolerance of drift between the declared times and the durations. */
  lemma {:induction false} PrefixDrift(s: Source, n: nat)
    requires Valid(s) && 0 < n <= |s.parts|
    ensures Abs(s.parts[n - 1].End() - Sum(s.parts[..n])) <= 0.01 * (n as real)
  {
    assert s.parts[..n][..n - 1] == s.parts[..n - 1];
    if n > 1 {
      PrefixDrift(s, n - 1);
      assert TOLERANCE * (n as real) == TOLERANCE * ((n - 1) as real) + TOLERANCE;
    } else {
      assert Sum(s.parts[..0]) == 0.0;
    }
  }

  lemma DurationDrift(s: Source)
    requires Valid(s)
    ensures Abs(s.duration - Sum(s.parts)) <= 0.01 * ((|s.parts| + 1) as real)
  {
    PrefixDrift(s, |s.parts|);
    assert s.parts[..|s.parts|] == s.parts;
  }

  // ------------------------------------------------------------- binary search

  /** What a search for `time` promises even when tolerated joints leave the starts unsorted. */
  predicate Found(parts: seq<Part>, time: real, r: nat) {
    && r < |parts|
    && (r == 0 || parts[r].start <= time)
    && (r == |parts| - 1 || parts[r + 1].start > time)
  }

  function FindFrom(parts: seq<Part>, time: real, lo: nat, hi: nat): (r: nat)
    requires lo <= hi < |parts|
    requires (lo == 0 || parts[lo].start <= time) && (hi == |parts| - 1 || parts[hi + 1].start > time)
    ensures Found(parts, time, r)
    decreases hi - lo
  {
    if lo == hi then lo else
      var mid := (lo + hi + 1) / 2;
      if parts[mid].start <= time then FindFrom(parts, time, mid, hi) else FindFrom(parts, time, lo, mid - 1)
  }

  function Find(parts: seq<Part>, time: real): (r: nat)
    requires parts != []
    ensures Found(parts, time, r)
  {
    FindFrom(parts, time, 0, |parts| - 1)
  }

  // ------------------------------------------------------------------- player

  /** The native element. `ready` is `readyState >= 1`; `queued` says that its loadedmetadata event is
      still to be delivered. */
  datatype Element = Element(src: string, time: real, length: real, ready: bool, queued: bool, paused: bool) {
    /** Pausing, setting the url and `load()`, which discards events queued earlier. */
    function Load(url: string): Element {
      Element(url, 0.0, 0.0, false, false, true)
    }

    function At(t: real): Element {
      this.(time := Max(0.0, Min(length, t)))
    }
  }

  /** The adapter's variables over the element; `tails` counts the calls of `onTail`. */
  datatype Player = Player(source: Source, index: nat, pending: Option<real>, paused: bool, disposed: bool,
      tailSent: bool,
                           video: Element, tails: nat) {
    predicate Consistent() {
      && Valid(source) && index < |source.parts|
      && video.src == Here().url && 0.0 <= video.time
      && (video.ready ==> Here().duration <= video.length && video.time <= video.length)
      && (!video.ready ==> !video.queued && video.time == 0.0)
      && (pending.Some?
          ==> 0.0 <= pending.value && (!video.ready || video.queued)) // its metadata event is still to come
    }

    function Here(): Part
      requires index < |source.parts|
    {
      source.parts[index]
    }

    /** The logical clock. */
    function Clock(): real
      requires index < |source.parts|
    {
      match pending
      case Some(t) => t
      case None => Min(source.duration, Here().start + Min(Here().duration, video.time))
    }

    function Change(next: nat, time: real): Player
      requires next < |source.parts|
    {
      Player(source, next, Some(time), paused, disposed, false, video.Load(source.parts[next].url), tails)
    }

    function Seek(time: real): Player
      requires index < |source.parts|
    {
      if disposed || !Finite(time, 0.0, LONGEST) then this else
        var t := Min(source.duration, time);
        var next := Find(source.parts, t);
        var p := this.(tailSent := false);
        if next != index then p.Change(next, t)
        else if pending.Some? || !video.ready then p.(pending := Some(t))
        else p.(video := video.At(t - Here().start))
    }

    function Loaded(): Player
      requires index < |source.parts|
    {
      if disposed then this else
        var v := if pending.Some? then video.At(pending.value - Here().start) else video;
        this.(pending := None, video := if paused then v else v.(paused := false))
    }

    function Ended(): Player
      requires index < |source.parts|
    {
      if disposed then this
      else if index < |source.parts| - 1 then Change(index + 1, source.parts[index + 1].start)
      else if !tailSent then this.(tailSent := true, tails := tails + 1)
      else this
    }

    function Update(next: Source): Player
      requires index < |source.parts| && next.parts != []
    {
      if disposed || next.url == source.url then this else
        var t := Min(Clock(), next.duration);
        this.(source := next, index := 0).Change(Find(next.parts, t), t)
    }
  }

  /** The adapter as it runs: one object, updated by its callbacks. */
  class Adapter {
    var source: Source
    var index: nat
    var pending: Option<real>
    var paused: bool
    var disposed: bool
    var tailSent: bool
    var video: Element
    var tails: nat

    function State(): Player
      reads this
    {
      Player(source, index, pending, paused, disposed, tailSent, video, tails)
    }

    constructor (initial: Source)
      requires Valid(initial)
      ensures State() == Attached(initial) && State().Consistent()
      ensures source == initial && index == 0 && pending == None && paused && !disposed && !tailSent && tails == 0
      ensures video == Element(initial.parts[0].url, 0.0, 0.0, false, false, true)
    {
      source, index, pending, paused, disposed, tailSent, tails := initial, 0, None, true, false, false, 0;
      video := Element(initial.parts[0].url, 0.0, 0.0, false, false, true);
    }

    method FindPart(time: real) returns (lo: nat)
      requires source.parts != []
      ensures lo == Find(source.parts, time)
    {
      var hi := |source.parts| - 1;
      lo := 0;
      while lo < hi
        invariant lo <= hi < |source.parts|
        invariant (lo == 0 || source.parts[lo].start <= time)
                    && (hi == |source.parts| - 1 || source.parts[hi + 1].start > time)
        invariant FindFrom(source.parts, time, lo, hi) == Find(source.parts, time)
        decreases hi - lo
      {
        var mid := (lo + hi + 1) / 2;
        if source.parts[mid].start <= time {
          lo := mid;
        } else {
          hi := mid - 1;
        }
      }
    }

    method Change(next: nat, time: real)
      requires next < |source.parts|
      modifies this
      ensures State() == old(State()).Change(next, time)
    {
      pending := Some(time);
      index := next;
      tailSent := false;
      video := video.Load(source.parts[index].url);
    }

    method Seek(requested: real)
      requires index < |source.parts|
      modifies this
      ensures State() == old(State()).Seek(requested)
    {
      if disposed || !Finite(requested, 0.0, LONGEST) {
        return;
      }
      var time := Min(source.duration, requested);
      var next := FindPart(time);
      tailSent := false;
      if next != index {
        Change(next, time);
      } else if pending.Some? || !video.ready {
        pending := Some(time);
      } else {
        video := video.At(time - source.parts[index].start);
      }
    }

    method Loaded()
      requires index < |source.parts|
      modifies this
      ensures State() == old(State()).Loaded()
    {
      if disposed {
        return;
      }
      var time := pending;
      pending := None;
      if time.Some? {
        video := video.At(time.value - source.parts[index].start);
      }
      if !paused {
        video := video.(paused := false);
      }
    }

    method Ended()
      requires index < |source.parts|
      modifies this
      ensures State() == old(State()).Ended()
    {
      if disposed {
        return;
      }
      if index < |source.parts| - 1 {
        Change(index + 1, source.parts[index + 1].start);
      } else if !tailSent {
        tailSent := true;
        tails := tails + 1;
      }
    }

    method Update(next: Source)
      requires index < |source.parts| && next.parts != []
      modifies this
      ensures State() == old(State()).Update(next)
    {
      if disposed || next.url == source.url {
        return;
      }
      var time := Min(State().Clock(), next.duration);
      source := next;
      var part := FindPart(time);
      Change(part, time);
    }

    method Play()
      modifies this
      ensures State() == old(State()).(paused := false, video := old(video).(paused := false))
    {
      paused := false;
      video := video.(paused := false);
    }

    method Pause()
      modifies this
      ensures State() == old(State()).(paused := true, video := old(video).(paused := true))
    {
      paused := true;
      video := video.(paused := true);
    }
  }

  function Attached(source: Source): Player
    requires source.parts != []
  {
    Player(source, 0, None, true, false, false, Element(source.parts[0].url, 0.0, 0.0, false, false, true), 0)
  }

  // ------------------------------------------------------------------ seeking

  /** The element's metadata arrives (if it has not), and its event is delivered. */
  function Settle(p: Player, length: real): Player
    requires p.index < |p.source.parts|
  {
    var v := if p.video.ready then p.video else p.video.(ready := true, length := length);
    p.(video := v.(queued := false)).Loaded()
  }

  /** In the part the search found, setting the element to `t - start` makes the clock read t within the tolerance. */
  lemma PlacedNearby(p: Player, t: real, r: nat)
    requires p.Consistent() && p.pending == None && p.video.ready
    requires Found(p.source.parts, t, r) && p.index == r && 0.0 <= t <= p.source.duration
    requires p.video == p.video.At(t - p.Here().start)
    requires p.video.time == Max(0.0, Min(p.video.length, t - p.Here().start))
    ensures Abs(p.Clock() - t) <= TOLERANCE
  {
    if r < |p.source.parts| - 1 {
      assert Abs(p.source.parts[r + 1].start - p.Here().End()) <= TOLERANCE;
    }
  }

  /** A pending time, in the part that was found for it, is reached once the metadata has loaded. */
  lemma PendingLands(q: Player, t: real, length: real)
    requires q.Consistent() && !q.disposed && q.pending == Some(t) && length >= q.Here().duration
    requires 0.0 <= t <= q.source.duration && q.index == Find(q.source.parts, t)
    ensures Settle(q, length).Consistent() && Settle(q, length).pending == None
    ensures Abs(Settle(q, length).Clock() - t) <= TOLERANCE
  {
    hide Find;
    PlacedNearby(Settle(q, length), t, q.index);
  }

  /** Whatever is accepted, seeking to t reads within the tolerance of min(t, duration), at once and again
      when the part's metadata has loaded; the play/pause intent is untouched, the tail can be reported again,
      and the element is loaded anew exactly when the part changes. */
  lemma SeekLands(p: Player, t: real, length: real)
    requires p.Consistent() && !p.disposed && Finite(t, 0.0, LONGEST)
    requires length >= p.Seek(t).Here().duration
    ensures var target, q := Min(p.source.duration, t), p.Seek(t);
            && q.Consistent() && q.paused == p.paused && q.tails == p.tails
            && Abs(q.Clock() - target) <= 0.01
            && (q.pending.Some? ==> q.Clock() == target && Settle(q, length).Consistent()
                                    && Abs(Settle(q, length).Clock() - target) <= 0.01)
    ensures var q := p.Seek(t);
            && q.source == p.source && !q.tailSent && !q.disposed
            && if q.index == p.index then q.video.(time := 0.0) == p.video.(time := 0.0)
               else q.video == Element(q.Here().url, 0.0, 0.0, false, false, true)
  {
    hide Find, Valid, Settle, Abs;
    var target, q := Min(p.source.duration, t), p.Seek(t);
    PositiveDuration(p.source);
    if q.pending.Some? {
      PendingLands(q, target, length);
      NoDistance(target);
    } else {
      PlacedNearby(q, target, Find(p.source.parts, target));
    }
  }

  lemma PositiveDuration(s: Source)
    requires Valid(s)
    ensures s.duration > 0.0
  {
  }

  lemma NoDistance(t: real)
    ensures Abs(t - t) <= TOLERANCE
  {
  }

  /** Moving to a new recording of the same broadcast keeps the old clock within the tolerance. */
  lemma UpdateLands(p: Player, next: Source, length: real)
    requires p.Consistent() && !p.disposed && Valid(next) && next.url != p.source.url
    requires length >= p.Update(next).Here().duration
    ensures var target, q := Min(p.Clock(), next.duration), p.Update(next);
            && q.Consistent() && q.paused == p.paused && q.tails == p.tails && q.source == next && q.Clock() == target
            && Abs(Settle(q, length).Clock() - target) <= 0.01
            && !q.tailSent && q.video == Element(q.Here().url, 0.0, 0.0, false, false, true)
  {
    hide Find, Settle, Abs;
    var target, q := Min(p.Clock(), next.duration), p.Update(next);
    PendingLands(q, target, length);
  }

  // ------------------------------------------------------------------ any run

  /** What can happen to the adapter: the element's own events, and what users and the page do. */
  datatype Event =
    | Metadata(length: real) | Deliver | Advance(to: real) | Finish
    | SeekTo(time: real) | PressPlay | PressPause | PlayRejected | NewSource(next: Source) | Dispose

  predicate Media(e: Event) {
    e.Metadata? || e.Deliver? || e.Advance? || e.Finish?
  }

  predicate Enabled(p: Player, e: Event)
    requires p.index < |p.source.parts|
  {
    var v := p.video;
    match e
    case Metadata(length) => !v.ready && length >= p.Here().duration
    case Deliver => v.queued
    case Advance(to) => v.ready && !v.queued && !v.paused && v.time <= to <= v.length
    case Finish => v.ready && !v.queued && v.time == v.length
    case NewSource(next) => Valid(next)
    case _ => true
  }

  function Next(p: Player, e: Event): Player
    requires p.index < |p.source.parts|
  {
    if !Enabled(p, e) then p else
      match e
      case Metadata(length) => p.(video := p.video.(ready := true, queued := true, length := length))
      case Deliver => p.(video := p.video.(queued := false)).Loaded()
      case Advance(to) => p.(video := p.video.(time := to))
      case Finish => p.(video := p.video.(paused := true)).Ended()
      case SeekTo(time) => p.Seek(time)
      case PressPlay => p.(paused := false, video := p.video.(paused := false))
      case PressPause => p.(paused := true, video := p.video.(paused := true))
      case PlayRejected => if p.disposed then p else p.(paused := true)
      case NewSource(next) => p.Update(next)
      case Dispose => p.(disposed := true, video := p.video.(paused := true))
  }

  /** While the adapter is attached, every event keeps it consistent; only the user, or a refused play,
      changes the play/pause intent; only the end of the last part reports the tail. */
  lemma NextKeeps(p: Player, e: Event)
    requires p.Consistent() && !p.disposed
    ensures Next(p, e).Consistent()
    ensures !e.PressPlay? && !e.PressPause? && !e.PlayRejected? ==> Next(p, e).paused == p.paused
    ensures Next(p, e).tails != p.tails ==>
              e.Finish? && p.index == |p.source.parts| - 1 && !p.tailSent && Next(p, e).tails == p.tails + 1
  {
    hide Find, Abs;
    if e.SeekTo? && Enabled(p, e) && Finite(e.time, 0.0, LONGEST) {
      SeekLands(p, e.time, p.Seek(e.time).Here().duration);
    } else if e.NewSource? && Enabled(p, e) && e.next.url != p.source.url {
      UpdateLands(p, e.next, p.Update(e.next).Here().duration);
    } else if e.Finish? && Enabled(p, e) && p.index < |p.source.parts| - 1 {
      assert p.source.parts[p.index + 1].start >= 0.0;
    }
  }

  /** What the adapter ignores: everything once it is disposed of, times outside the range, and its own recording. */
  lemma Ignored(p: Player, e: Event)
    requires p.index < |p.source.parts|
    requires p.disposed || (e.SeekTo? && !(0.0 <= e.time <= 604800.0)) || (e.NewSource? && e.next.url == p.source.url)
    ensures var q := Next(p, e);
            && q.source == p.source && q.index == p.index && q.pending == p.pending && q.tailSent == p.tailSent
            && q.tails == p.tails && (e.SeekTo? || e.NewSource? ==> q == p)
            && (e.Deliver? && p.disposed ==> q.video == p.video.(queued := false))
            && (e.Finish? && p.disposed ==> q.video.(paused := p.video.paused) == p.video)
  {
  }

  /** The element plays only as the user wants: it starts on a press of play, or when metadata arrive while the intent
      is to play, as it then must; it stops on a press of pause. */
  lemma IntentRules(p: Player, e: Event)
    requires p.index < |p.source.parts| && !p.disposed
    ensures p.video.paused && !Next(p, e).video.paused ==> e.PressPlay? || (e.Deliver? && !p.paused)
    ensures e.Deliver? && p.video.queued ==> Next(p, e).video.paused == (p.video.paused && p.paused)
    ensures e.PressPlay? ==> !Next(p, e).paused && !Next(p, e).video.paused
    ensures e.PressPause? ==> Next(p, e).paused && Next(p, e).video.paused
    ensures e.PlayRejected? ==> Next(p, e).paused
    ensures Next(p, e).index != p.index ==>
              Next(p, e).video == Element(Next(p, e).Here().url, 0.0, 0.0, false, false, true)
  {
    hide Find, Valid;
  }

  // -------------------------------------------------------- uninterrupted run

  /** A run of element events alone, with the parts it visited and the highest clock reading so far. */
  datatype Playback = Playback(player: Player, visited: seq<nat>, peak: real)

  function Begin(source: Source): Playback
    requires source.parts != []
  {
    var p := Attached(source).(paused := false, video := Attached(source).video.(paused := false));
    Playback(p, [0], p.Clock())
  }

  function Observe(b: Playback, e: Event): Playback
    requires b.player.index < |b.player.source.parts|
    requires var q := Next(b.player, e); q.index < |q.source.parts|
  {
    var q := Next(b.player, e);
    Playback(q, if q.index == b.player.index then b.visited else b.visited + [q.index], Max(b.peak, q.Clock()))
  }

  /** The highest reading part i can show: its end, or its start while it waits to be loaded. */
  function Top(s: Source, i: nat): real
    requires i < |s.parts|
  {
    var end := Min(s.duration, s.parts[i].End());
    if i == 0 then end else Max(s.parts[i].start, end)
  }

  function Low(s: Source, j: nat): real
    requires j < |s.parts|
  {
    Min(s.duration, s.parts[j].start)
  }

  /** The highest reading of the parts before `n`. */
  function Highest(s: Source, n: nat): (h: real)
    requires n <= |s.parts|
    ensures forall i: nat | i < n :: Top(s, i) <= h
    ensures h == 0.0 || exists i: nat | i < n :: Top(s, i) == h
  {
    if n == 0 then 0.0 else Max(Highest(s, n - 1), Top(s, n - 1))
  }

  /** The highest reading up to the moment part i waits to be loaded. */
  function Ceiling(s: Source, i: nat): real
    requires i < |s.parts|
  {
    if i == 0 then 0.0 else Max(Highest(s, i), s.parts[i].start)
  }

  ghost predicate Steady(b: Playback, source: Source) {
    var p := b.player;
    && p.Consistent() && p.source == source && !p.paused && !p.disposed
    && b.visited == seq(p.index + 1, i => i)
    && (p.pending.Some? ==> p.index > 0 && p.pending.value == p.Here().start)
    && p.tails == (if p.tailSent then 1 else 0) && (p.tailSent ==> p.index == |source.parts| - 1)
    && p.Clock() <= b.peak <= Max(p.Clock(), Ceiling(source, p.index))
  }

  ghost function PlayRun(source: Source, events: seq<Event>): (b: Playback)
    requires Valid(source) && forall e | e in events :: Media(e)
    ensures Steady(b, source)
  {
    if events == [] then Begin(source) else
      var b := PlayRun(source, events[..|events| - 1]);
      var e := events[|events| - 1];
      ObserveKeeps(b, e, source);
      Observe(b, e)
  }

  lemma ObserveKeeps(b: Playback, e: Event, source: Source)
    requires Steady(b, source) && Media(e)
    ensures var q := Next(b.player, e); q.index < |q.source.parts| && Steady(Observe(b, e), source)
  {
    hide Find, Abs, Valid;
    var p, q := b.player, Next(b.player, e);
    NextKeeps(p, e);
    if q.index != p.index {
      assert q.index == p.index + 1 && q.Clock() == q.Here().start;
      assert p.Clock() <= Top(source, p.index);
      assert seq(q.index + 1, i => i) == seq(p.index + 1, i => i) + [q.index];
    }
  }

  /** The list never makes the clock fall by more than the tolerance: a condition on the parts alone. */
  predicate Steadfast(s: Source) {
    && (forall j: nat | j < |s.parts| :: s.parts[j].start - Low(s, j) <= TOLERANCE)
    && (forall i: nat, j: nat | i < j < |s.parts| :: Top(s, i) - Low(s, j) <= TOLERANCE)
  }

  /** Parts that each last at least the tolerance are in order, so such a list is steadfast. */
  lemma LongPartsSteadfast(s: Source)
    requires Valid(s) && forall i: nat | i < |s.parts| :: s.parts[i].duration >= 0.01
    ensures Steadfast(s)
  {
    forall j: nat | j < |s.parts|
      ensures s.parts[j].start <= s.duration
    {
      Ordered(s, j, |s.parts| - 1);
    }
    forall i: nat, j: nat | i < j < |s.parts|
      ensures Top(s, i) - Low(s, j) <= TOLERANCE
    {
      Ordered(s, i, j - 1);
      Ordered(s, j, |s.parts| - 1);
      assert Abs(s.parts[j].start - s.parts[j - 1].End()) <= TOLERANCE;
    }
  }

  lemma {:induction false} Ordered(s: Source, i: nat, j: nat)
    requires Valid(s) && (forall k: nat | k < |s.parts| :: s.parts[k].duration >= TOLERANCE) && i <= j < |s.parts|
    ensures s.parts[i].start <= s.parts[j].start && s.parts[i].End() <= s.parts[j].End()
    decreases j
  {
    if i < j {
      Ordered(s, i, j - 1);
      assert Abs(s.parts[j].start - s.parts[j - 1].End()) <= TOLERANCE;
    }
  }

  // ------------------------------------------------------- reaching every part

  /** Element events that play part after part to its end, up to the beginning of part n. */
  function Script(s: Source, n: nat): seq<Event>
    requires n < |s.parts|
  {
    if n == 0 then [] else
      var d := s.parts[n - 1].duration;
      Script(s, n - 1) + [Metadata(d), Deliver, Advance(d), Finish]
  }

  lemma {:induction false} ScriptIsMedia(s: Source, n: nat)
    requires n < |s.parts|
    ensures forall e | e in Script(s, n) :: Media(e)
  {
    if n > 0 {
      ScriptIsMedia(s, n - 1);
    }
  }

  lemma RunSnoc(s: Source, events: seq<Event>, e: Event)
    requires Valid(s) && (forall e | e in events :: Media(e)) && Media(e)
    ensures var b := PlayRun(s, events); var q := Next(b.player, e);
            q.index < |q.source.parts| && PlayRun(s, events + [e]) == Observe(b, e)
  {
    assert (events + [e])[..|events|] == events;
  }

  /** Four events of one part: metadata, its delivery, playing to the end, and the end. */
  lemma RunPart(s: Source, events: seq<Event>)
    returns (loaded: Playback, done: Playback)
    requires Valid(s) && forall e | e in events :: Media(e)
    requires var p := PlayRun(s, events).player; !p.video.ready && (p.pending.Some? || p.index == 0)
    ensures var d := PlayRun(s, events).player.Here().duration;
            && loaded == PlayRun(s, events + [Metadata(d), Deliver])
                && done == PlayRun(s, events + [Metadata(d), Deliver, Advance(d), Finish])
    ensures var b := PlayRun(s, events);
            && loaded.player.index == b.player.index && loaded.player.Clock() == Low(s, b.player.index)
                && loaded.peak >= b.peak
            && done.peak >= Max(b.peak, Min(s.duration, b.player.Here().End()))
            && var v := loaded.player.video;
            done.player == loaded.player.(video := v.(time := v.length, paused := true)).Ended()
  {
    hide PlayRun, Find, Abs, Valid, Highest;
    var b := PlayRun(s, events);
    var d := b.player.Here().duration;
    var m, l, a, f := Metadata(d), Deliver, Advance(d), Finish;
    assert Steady(b, s) by { RunIsSteady(s, events); }
    RunSnoc(s, events, m);
    RunSnoc(s, events + [m], l);
    RunSnoc(s, events + [m] + [l], a);
    RunSnoc(s, events + [m] + [l] + [a], f);
    assert events + [m] + [l] == events + [m, l] && events + [m] + [l] + [a] + [f] == events + [m, l, a, f];
    loaded, done := PlayRun(s, events + [m, l]), PlayRun(s, events + [m, l, a, f]);
  }

  lemma RunIsSteady(s: Source, events: seq<Event>)
    requires Valid(s) && forall e | e in events :: Media(e)
    ensures Steady(PlayRun(s, events), s)
  {
  }

  /** The script reaches part n with every earlier top behind it. */
  lemma {:induction false} ScriptReaches(s: Source, n: nat)
    requires Valid(s) && n < |s.parts|
    ensures forall e | e in Script(s, n) :: Media(e)
    ensures RunFrom(s, Script(s, n), n)
  {
    hide PlayRun, Find, Abs, Valid, RunFrom;
    ScriptIsMedia(s, n);
    if n == 0 {
      RunOfNothing(s);
    } else {
      ScriptReaches(s, n - 1);
      ScriptStep(s, n, Script(s, n - 1));
    }
  }

  lemma ScriptStep(s: Source, n: nat, before: seq<Event>)
    requires Valid(s) && 0 < n < |s.parts| && forall e | e in before :: Media(e)
    requires RunFrom(s, before, n - 1)
    ensures var d := s.parts[n - 1].duration; RunFrom(s, before + [Metadata(d), Deliver, Advance(d), Finish], n)
  {
    hide PlayRun, Find, Abs, Valid;
    RunIsSteady(s, before);
    var loaded, done := RunPart(s, before);
  }

  /** The events lead to the beginning of part n, which waits to be loaded, with every earlier top behind. */
  ghost predicate RunFrom(s: Source, events: seq<Event>, n: nat)
    requires Valid(s) && n < |s.parts| && forall e | e in events :: Media(e)
  {
    var b := PlayRun(s, events);
    && b.player.index == n && !b.player.video.ready && (n > 0 ==> b.player.pending == Some(s.parts[n].start))
    && b.peak >= Highest(s, n) && b.player.tails == 0
  }

  lemma RunOfNothing(s: Source)
    requires Valid(s)
    ensures RunFrom(s, [], 0)
  {
  }

  lemma ClockAboveLow(p: Player)
    requires p.Consistent() && (p.pending.Some? ==> p.pending.value == p.Here().start)
    ensures p.Clock() >= Low(p.source, p.index)
  {
  }

  /** Every list can be played through: each part is visited once, in order, and the tail is reported once. */
  lemma WholeRun(s: Source) returns (events: seq<Event>)
    requires Valid(s)
    ensures forall e | e in events :: Media(e)
    ensures var b := PlayRun(s, events); b.visited == seq(|s.parts|, i => i) && b.player.tails == 1
  {
    var last: nat := |s.parts| - 1;
    hide PlayRun, RunFrom, Valid, Script;
    ScriptReaches(s, last);
    events := LastPart(s, Script(s, last));
  }

  lemma LastPart(s: Source, before: seq<Event>) returns (events: seq<Event>)
    requires Valid(s) && (forall e | e in before :: Media(e)) && RunFrom(s, before, |s.parts| - 1)
    ensures forall e | e in events :: Media(e)
    ensures var b := PlayRun(s, events); b.visited == seq(|s.parts|, i => i) && b.player.tails == 1
  {
    hide PlayRun, Find, Abs, Valid;
    var d := PlayRun(s, before).player.Here().duration;
    RunIsSteady(s, before);
    events := before + [Metadata(d), Deliver, Advance(d), Finish];
    RunIsSteady(s, events);
    var loaded, done := RunPart(s, before);
  }

  /** No uninterrupted run ever lets the clock fall more than the tolerance below its highest reading,
      exactly when the part list is steadfast. */
  lemma ClockNeverFallsIff(s: Source)
    requires Valid(s)
    ensures Steadfast(s) <==>
            forall events | forall e | e in events :: Media(e) ::
                PlayRun(s, events).peak - PlayRun(s, events).player.Clock() <= 0.01
  {
    if Steadfast(s) {
      forall events | forall e | e in events :: Media(e)
        ensures PlayRun(s, events).peak - PlayRun(s, events).player.Clock() <= TOLERANCE
      {
        SteadfastRun(s, events);
      }
    } else {
      var events := FallingRun(s);
    }
  }

  lemma SteadfastRun(s: Source, events: seq<Event>)
    requires Valid(s) && Steadfast(s) && forall e | e in events :: Media(e)
    ensures PlayRun(s, events).peak - PlayRun(s, events).player.Clock() <= TOLERANCE
  {
    hide PlayRun, Abs, Valid, Find;
    RunIsSteady(s, events);
    var p := PlayRun(s, events).player;
    ClockAboveLow(p);
    CeilingClose(s, p.index);
  }

  lemma CeilingClose(s: Source, n: nat)
    requires Valid(s) && Steadfast(s) && n < |s.parts|
    ensures Ceiling(s, n) - Low(s, n) <= TOLERANCE
  {
    hide Highest;
    if n > 0 && Highest(s, n) != 0.0 {
      var i: nat :| i < n && Top(s, i) == Highest(s, n);
      assert Top(s, i) - Low(s, n) <= TOLERANCE;
    }
  }

  lemma FallingRun(s: Source) returns (events: seq<Event>)
    requires Valid(s) && !Steadfast(s)
    ensures forall e | e in events :: Media(e)
    ensures PlayRun(s, events).peak - PlayRun(s, events).player.Clock() > TOLERANCE
  {
    var j: nat := Falling(s);
    hide PlayRun, Abs, Valid, Find, Steadfast;
    ScriptReaches(s, j);
    RunIsSteady(s, Script(s, j));
    var loaded, done := RunPart(s, Script(s, j));
    events := Script(s, j) + [Metadata(s.parts[j].duration), Deliver];
  }

  lemma Falling(s: Source) returns (j: nat)
    requires Valid(s) && !Steadfast(s)
    ensures 0 < j < |s.parts| && Max(Highest(s, j), s.parts[j].start) - Low(s, j) > TOLERANCE
  {
    if k: nat :| k < |s.parts| && s.parts[k].start - Low(s, k) > TOLERANCE {
      j := k;
    } else {
      var i: nat, k: nat :| i < k < |s.parts| && Top(s, i) - Low(s, k) > TOLERANCE;
      j := k;
    }
  }

  /** Very short parts at overlapping joints are accepted, yet the clock falls by 26.5 ms over the
      run. Every joint is off by 9.5 ms, well inside the tolerance. */
  lemma ShortPartsFall() returns (data: Data)
    ensures Acceptable(data) && !Steadfast(Built(data))
  {
    data := Data("u", 10.9735, Some([PartData(0, 0.0, 1.0), PartData(1, 0.9905, 0.001), PartData(2, 0.982, 0.001),
                                 PartData(3, 0.9735, 10.0)]));
    var s := Built(data);
    assert s.parts[0].End() == 1.0 && s.parts[3].start == 0.9735;
    assert Top(s, 0) - Low(s, 3) > TOLERANCE;
  }
}
