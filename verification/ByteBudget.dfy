/** The shared byte budget of the transport comparison: any number of workers claim image indices from one
    atomic counter, and reserve, read and return bytes of another. A state machine with one action per
    atomic operation; the server decides what every request and every read brings. */
module ByteBudget {

  const TOTAL_BYTES: nat := 64 * 1024 * 1024
  const IMAGE_BYTES: nat := 4 * 1024 * 1024
  const BUFFER: nat := 16 * 1024

  datatype Worker =
    | Idle                                                     // top of the loop: about to look at the stop flag
    | AskBudget                                                // about to look at the byte counter
    | Claiming                                                 // about to take the next index
    | Claimed(index: nat)                                      // waits its turn, then looks at the stop flag
    | Sending(index: nat)
    | Reading(index: nat, bytes: nat)                          // top of the read loop
    | Reserving(index: nat, bytes: nat, desired: nat)
    | Reserved(index: nat, bytes: nat, reserved: nat)          // the read is under way
    | Got(index: nat, bytes: nat, reserved: nat, length: nat)  // read, the unused part not returned yet
    | Refused(index: nat, bytes: nat, reserved: nat)           // the read failed, nothing returned yet
    | Finishing(index: nat, bytes: nat, ok: bool)
    | Pushing(index: nat, bytes: nat)
    | Exited
  {
    predicate HasIndex() {
      !Idle? && !AskBudget? && !Claiming? && !Exited?
    }

    /** Bytes this request has kept so far. */
    function Kept(): nat {
      if HasIndex() && !Claimed? && !Sending? then bytes else 0
    }

    /** Bytes reserved and not yet settled. */
    function Outstanding(): nat {
      if Reserved? || Got? || Refused? then reserved else 0
    }
  }

  datatype Entry = Entry(index: nat, bytes: nat)

  /** `past` sums the results of earlier rounds; `images` is the number of urls. */
  datatype State = State(transferred: int, stop: bool, next: nat, workers: seq<Worker>, results: seq<Entry>, past: nat,
      images: nat)

  /** What the outside world decides in a step: a failure, or how many bytes come. */
  datatype Choice = Fail | Give(n: nat)
  datatype Action = Step(id: nat, choice: Choice) | NewRound(concurrency: nat)

  function Min(a: nat, b: nat): nat {
    if a <= b then a else b
  }

  /** `desired`: one buffer, or what the image may still take. */
  function Desired(bytes: nat): nat {
    Min(BUFFER, if bytes < IMAGE_BYTES then IMAGE_BYTES - bytes else 0)
  }

  function With(s: State, i: nat, w: Worker): State
    requires i < |s.workers|
  {
    s.(workers := s.workers[i := w])
  }

  function StepWorker(s: State, i: nat, choice: Choice): (t: State)
    requires i < |s.workers|
    ensures |t.workers| == |s.workers|
  {
    match s.workers[i]
    case Idle => With(s, i, if s.stop then Exited else AskBudget)
    case AskBudget => With(s, i, if s.transferred >= TOTAL_BYTES then Exited else Claiming)
    case Claiming => With(s, i, if s.next < s.images then Claimed(s.next) else Exited).(next := s.next + 1)
    case Claimed(index) => With(s, i, if s.stop then Exited else Sending(index))
    case Sending(index) => With(s, i, if choice.Fail? then Finishing(index, 0, false) else Reading(index, 0))
    case Reading(index, bytes) =>
      With(s, i, if s.stop || Desired(bytes) == 0 then Finishing(index, bytes, false)
                 else Reserving(index, bytes, Desired(bytes)))
    case Reserving(index, bytes, desired) =>
      if s.transferred >= TOTAL_BYTES then With(s, i, Finishing(index, bytes, false)) else
        var reserved := Min(desired, TOTAL_BYTES - s.transferred);
        With(s, i, Reserved(index, bytes, reserved)).(transferred := s.transferred + reserved)
    case Reserved(index, bytes, reserved) =>
      if choice.Fail? then With(s, i, Refused(index, bytes, reserved))
      else if choice.n <= reserved then With(s, i, Got(index, bytes, reserved, choice.n))
      else s
    case Got(index, bytes, reserved, length) =>
      With(s, i, if length == 0 then Finishing(index, bytes, true) else Reading(index, bytes + length))
      .(transferred := s.transferred - (reserved - length))
    case Refused(index, bytes, reserved) =>
      With(s, i, Finishing(index, bytes, false)).(transferred := s.transferred - reserved)
    case Finishing(index, bytes, ok) => With(s, i, Pushing(index, bytes)).(stop := s.stop || !ok)
    case Pushing(index, bytes) => With(s, i, Idle).(results := s.results + [Entry(index, bytes)])
    case Exited => s
  }

  predicate RoundOver(s: State) {
    forall i | 0 <= i < |s.workers| :: s.workers[i] == Exited
  }

  function Next(s: State, a: Action): State {
    match a
    case Step(i, choice) => if i < |s.workers| then StepWorker(s, i, choice) else s
    case NewRound(concurrency) =>
      if RoundOver(s) && !s.stop
      then State(s.transferred, false, 0, seq(concurrency, _ => Idle), [], s.past + Bytes(s.results), s.images) else s
  }

  function Begin(images: nat): State {
    State(0, false, 0, [], [], 0, images)
  }

  function Run(images: nat, actions: seq<Action>): State {
    if actions == [] then Begin(images) else Next(Run(images, actions[..|actions| - 1]), actions[|actions| - 1])
  }

  // -------------------------------------------------------------------- sums

  function Bytes(results: seq<Entry>): nat {
    if results == [] then 0 else Bytes(results[..|results| - 1]) + results[|results| - 1].bytes
  }

  /** Bytes kept by running requests plus bytes reserved and not settled, over all workers. */
  function Load(workers: seq<Worker>): nat {
    if workers == [] then 0 else
      var w := workers[|workers| - 1];
      Load(workers[..|workers| - 1]) + w.Kept() + w.Outstanding()
  }

  lemma {:induction false} LoadUpdate(workers: seq<Worker>, i: nat, w: Worker)
    requires i < |workers|
    ensures Load(workers[i := w]) + workers[i].Kept() + workers[i].Outstanding()
              == Load(workers) + w.Kept() + w.Outstanding()
  {
    var last := |workers| - 1;
    if i == last {
      assert workers[i := w][..last] == workers[..last];
    } else {
      assert workers[i := w][..last] == workers[..last][i := w];
      LoadUpdate(workers[..last], i, w);
    }
  }

  lemma {:induction false} LoadOfNew(n: nat)
    ensures Load(seq(n, _ => Idle)) == 0
  {
    if n > 0 {
      assert seq(n, _ => Idle)[..n - 1] == seq(n - 1, _ => Idle);
      LoadOfNew(n - 1);
    }
  }

  lemma {:induction false} LoadOfExited(workers: seq<Worker>)
    requires forall i | 0 <= i < |workers| :: workers[i] == Exited
    ensures Load(workers) == 0
  {
    if workers != [] {
      LoadOfExited(workers[..|workers| - 1]);
    }
  }

  // ------------------------------------------------------------ in-place form

  /** What the server does with one request: refuse it, or bring bytes read by read; behind the list it is at
      its end. */
  datatype Answer = Answer(accepted: bool, chunks: seq<Choice>) {
    /** The body arrives whole, with room to spare. */
    predicate Completes(room: int) {
      accepted && !Breaks(chunks) && Arriving(chunks) < room
    }

    /** What of the body is taken into `room` bytes. */
    function Taken(room: int): int {
      if !accepted then 0 else if Arriving(chunks) <= room then Arriving(chunks) else room
    }
  }

  /** What the server brings up to its end or a failure, at most one buffer of 16 KiB a read. */
  function Arriving(chunks: seq<Choice>): nat {
    if chunks == [] || chunks[0].Fail? || chunks[0].n == 0 then 0
    else Min(chunks[0].n, 16384) + Arriving(chunks[1..])
  }

  /** A read fails before the end. */
  predicate Breaks(chunks: seq<Choice>) {
    chunks != [] && (chunks[0].Fail? || (chunks[0].n > 0 && Breaks(chunks[1..])))
  }

  /** What one request may take: 4 MiB, and what is left of 64 MiB. */
  function RoomAt(transferred: int): int {
    if 67108864 - transferred < 4194304 then 67108864 - transferred else 4194304
  }

  /** One worker taking its steps with no other step in between. */
  function Alone(s: State, choices: seq<Choice>): (t: State)
    requires |s.workers| == 1
    ensures |t.workers| == 1
  {
    if choices == [] then s else StepWorker(Alone(s, choices[..|choices| - 1]), 0, choices[|choices| - 1])
  }

  ghost predicate Reaches(s: State, t: State)
    requires |s.workers| == 1
  {
    exists choices :: Alone(s, choices) == t
  }

  lemma ReachesSelf(s: State)
    requires |s.workers| == 1
    ensures Reaches(s, s)
  {
    assert Alone(s, []) == s;
  }

  lemma ReachesNext(s: State, t: State, choice: Choice)
    requires |s.workers| == 1 && |t.workers| == 1 && Reaches(s, t)
    ensures Reaches(s, StepWorker(t, 0, choice))
  {
    hide StepWorker;
    var choices :| Alone(s, choices) == t;
    assert (choices + [choice])[..|choices|] == choices;
    assert Alone(s, choices + [choice]) == StepWorker(t, 0, choice);
  }

  lemma Single()
    ensures forall v: Worker, w: Worker :: [v][0 := w] == [w]
  {
  }

  /** The step of the only worker, with its result spelled out. */
  lemma ReachesState(start: State, s: State, choice: Choice, w: Worker, t: State)
    requires |start.workers| == 1 && s.workers == [w] && Reaches(start, s)
    requires |t.workers| == 1 && StepWorker(s, 0, choice) == t.(workers := s.workers[0 := t.workers[0]])
    ensures Reaches(start, t)
  {
    hide Reaches, StepWorker;
    assert s.workers[0 := t.workers[0]] == t.workers;
    ReachesNext(start, s, choice);
  }

  /** One pass of the read loop up to the answer of the server: a reservation is under way. */
  lemma ReachesReserved(start: State, s: State, index: nat, bytes: nat)
    requires |start.workers| == 1 && s.workers == [Reading(index, bytes)] && Reaches(start, s)
    requires !s.stop && Desired(bytes) > 0 && 0 <= s.transferred < TOTAL_BYTES
    ensures var reserved := Min(Desired(bytes), TOTAL_BYTES - s.transferred);
            Reaches(start, s.(workers := [Reserved(index, bytes, reserved)], transferred := s.transferred + reserved))
  {
    hide Reaches;
    var asking, reserved := s.(workers := [Reserving(index, bytes, Desired(bytes))]),
        Min(Desired(bytes), TOTAL_BYTES - s.transferred);
    ReachesState(start, s, Fail, Reading(index, bytes), asking);
    ReachesState(start, asking, Fail, Reserving(index, bytes, Desired(bytes)),
      s.(workers := [Reserved(index, bytes, reserved)], transferred := s.transferred + reserved));
  }

  lemma ReachesRead(start: State, s: State, index: nat, bytes: nat, reserved: nat, length: nat)
    requires |start.workers| == 1 && s.workers == [Reserved(index, bytes, reserved)] && Reaches(start, s)
               && length <= reserved
    ensures Reaches(start,
              s.(workers := [if length == 0 then Finishing(index, bytes, true) else Reading(index, bytes + length)],
                              transferred := s.transferred - (reserved - length)))
  {
    hide Reaches;
    var got := s.(workers := [Got(index, bytes, reserved, length)]);
    ReachesState(start, s, Give(length), Reserved(index, bytes, reserved), got);
    ReachesState(start, got, Fail, Got(index, bytes, reserved, length),
      s.(workers := [if length == 0 then Finishing(index, bytes, true) else Reading(index, bytes + length)],
         transferred := s.transferred - (reserved - length)));
  }

  lemma ReachesRefused(start: State, s: State, index: nat, bytes: nat, reserved: nat)
    requires |start.workers| == 1 && s.workers == [Reserved(index, bytes, reserved)] && Reaches(start, s)
    ensures Reaches(start, s.(workers := [Finishing(index, bytes, false)], transferred := s.transferred - reserved))
  {
    hide Reaches;
    var refused := s.(workers := [Refused(index, bytes, reserved)]);
    ReachesState(start, s, Fail, Reserved(index, bytes, reserved), refused);
    ReachesState(start, refused, Fail, Refused(index, bytes, reserved),
      s.(workers := [Finishing(index, bytes, false)], transferred := s.transferred - reserved));
  }

  lemma ReachesGivenUp(start: State, s: State, index: nat, bytes: nat)
    requires |start.workers| == 1 && s.workers == [Reading(index, bytes)] && Reaches(start, s)
    requires s.stop || Desired(bytes) == 0 || s.transferred >= TOTAL_BYTES
    ensures Reaches(start, s.(workers := [Finishing(index, bytes, false)]))
  {
    hide Reaches;
    var asking, end := s.(workers := [Reserving(index, bytes, Desired(bytes))]),
        s.(workers := [Finishing(index, bytes, false)]);
    if s.stop || Desired(bytes) == 0 {
      ReachesState(start, s, Fail, Reading(index, bytes), end);
    } else {
      ReachesState(start, s, Fail, Reading(index, bytes), asking);
      ReachesState(start, asking, Fail, Reserving(index, bytes, Desired(bytes)), end);
    }
  }

  /** From the top of the loop: either the worker leaves, or it has claimed an index and is about to send. */
  lemma ReachesClaim(start: State, s: State)
    requires |start.workers| == 1 && s.workers == [Idle] && Reaches(start, s)
    ensures s.stop || s.transferred >= TOTAL_BYTES ==> Reaches(start, s.(workers := [Exited]))
    ensures !s.stop && s.transferred < TOTAL_BYTES ==>
              Reaches(start, s.(next := s.next + 1, workers := [if s.next < s.images then Sending(s.next) else Exited]))
  {
    hide Reaches;
    var asking, claiming := s.(workers := [AskBudget]), s.(workers := [Claiming]);
    var claimed := s.(next := s.next + 1, workers := [if s.next < s.images then Claimed(s.next) else Exited]);
    if s.stop {
      ReachesState(start, s, Fail, Idle, s.(workers := [Exited]));
    } else {
      ReachesState(start, s, Fail, Idle, asking);
      if s.transferred >= TOTAL_BYTES {
        ReachesState(start, asking, Fail, AskBudget, s.(workers := [Exited]));
      } else {
        ReachesState(start, asking, Fail, AskBudget, claiming);
        ReachesState(start, claiming, Fail, Claiming, claimed);
        if s.next < s.images {
          ReachesState(start, claimed, Fail, Claimed(s.next), claimed.(workers := [Sending(s.next)]));
        }
      }
    }
  }

  lemma ReachesResult(start: State, s: State, index: nat, bytes: nat, ok: bool)
    requires |start.workers| == 1 && s.workers == [Finishing(index, bytes, ok)] && Reaches(start, s)
    ensures Reaches(start, s.(workers := [Idle], stop := s.stop || !ok, results := s.results + [Entry(index, bytes)]))
  {
    hide Reaches;
    var pushing := s.(workers := [Pushing(index, bytes)], stop := s.stop || !ok);
    ReachesState(start, s, Fail, Finishing(index, bytes, ok), pushing);
    ReachesState(start, pushing, Fail, Pushing(index, bytes),
        pushing.(workers := [Idle], results := s.results + [Entry(index, bytes)]));
  }

  /** The shared counters of a round, and the code of one worker on them; run alone, it takes the worker's steps. */
  class Shared {
    var transferred: int
    var stop: bool
    var next: nat
    var results: seq<Entry>
    const images: nat

    function View(w: Worker): State
      reads this
    {
      State(transferred, stop, next, [w], results, 0, images)
    }

    constructor (images: nat)
      ensures View(Idle) == Begin(images).(workers := [Idle])
    {
      transferred, stop, next, results := 0, false, 0, [];
      this.images := images;
    }

    /** One request, from sending to its result: every byte kept is counted once, every unused one returned. */
    method Request(index: nat, answer: Answer) returns (bytes: nat, ok: bool)
      requires 0 <= transferred <= TOTAL_BYTES
      modifies this`transferred
      ensures Reaches(old(View(Sending(index))), View(Finishing(index, bytes, ok)))
      ensures transferred == old(transferred) + bytes <= 67108864 && bytes <= 4194304
      ensures bytes == if stop then 0 else answer.Taken(RoomAt(old(transferred)))
      ensures ok <==> !stop && answer.Completes(RoomAt(old(transferred)))
    {
      hide Reaches, StepWorker, Arriving, Breaks;
      ghost var start := View(Sending(index));
      ReachesSelf(start);
      bytes := 0;
      RequestSent(start, index, answer.accepted);
      if !answer.accepted {
        return 0, false;
      }
      var k := 0;
      ghost var room := RoomAt(transferred);
      assert answer.chunks[0..] == answer.chunks;
      while true
        invariant k <= |answer.chunks| && bytes <= IMAGE_BYTES && transferred == old(transferred) + bytes <= TOTAL_BYTES
        invariant bytes <= room && (stop ==> bytes == 0)
        invariant bytes < room ==> bytes + Arriving(answer.chunks[k..]) == Arriving(answer.chunks)
                                   && Breaks(answer.chunks[k..]) == Breaks(answer.chunks)
        invariant bytes == room ==> Arriving(answer.chunks) >= room
        invariant Reaches(start, View(Reading(index, bytes)))
        decreases |answer.chunks| - k
      {
        ghost var before := View(Reading(index, bytes));
        var desired := Desired(bytes);
        if stop || desired == 0 || transferred >= TOTAL_BYTES {
          ReachesGivenUp(start, before, index, bytes);
          return bytes, false;
        }
        ReachesReserved(start, before, index, bytes);
        var reserved := Min(desired, TOTAL_BYTES - transferred);
        transferred := transferred + reserved;
        ghost var asked := View(Reserved(index, bytes, reserved));
        var read := if k < |answer.chunks| then answer.chunks[k] else Give(0);
        NextRead(answer.chunks, k);
        if read.Fail? {
          ReachesRefused(start, asked, index, bytes, reserved);
          transferred := transferred - reserved;
          return bytes, false;
        }
        var length := Min(read.n, reserved);
        ReachesRead(start, asked, index, bytes, reserved, length);
        transferred := transferred - (reserved - length);
        if length == 0 {
          return bytes, true;
        }
        bytes, k := bytes + length, k + 1;
      }
    }

    /** The whole worker: it claims indices until the flag, the budget or the urls end it, and lists what it took
        of each answer; the first answer that does not complete stops the comparison. */
    method Work(server: nat -> Answer)
      requires 0 <= transferred <= TOTAL_BYTES
      modifies this
      ensures Reaches(old(View(Idle)), View(Exited))
      ensures old(results) <= results
                && transferred == old(transferred) + Bytes(results) - Bytes(old(results)) <= 67108864
      ensures stop || transferred >= 67108864 || next > images
      ensures var added := results[|old(results)|..];
              && Listed(added, server, old(next), old(transferred))
              && next == old(next) + |added| + (if stop || transferred >= 67108864 then 0 else 1)
              && (added != [] ==> old(next) + |added| <= images)
              && (old(stop) ==> added == [])
              && (stop <==> old(stop) || (added != [] && !Completed(added, |added| - 1, server, old(transferred))))
              && (forall j | 0 <= j < |added| - 1 :: Completed(added, j, server, old(transferred)))
    {
      hide Reaches, Bytes, StepWorker;
      ghost var added: seq<Entry> := [];
      ghost var start := View(Idle);
      ReachesSelf(start);
      NoneListed(server, next, transferred);
      while true
        invariant Reaches(start, View(Idle)) && results == old(results) + added
        invariant 0 <= transferred == old(transferred) + Bytes(added) <= TOTAL_BYTES
        invariant Bytes(results) == Bytes(old(results)) + Bytes(added)
        invariant Listed(added, server, old(next), old(transferred)) && next == old(next) + |added|
        invariant added != [] ==> next <= images
        invariant old(stop) ==> stop && added == []
        invariant stop ==> old(stop) || (added != [] && !Completed(added, |added| - 1, server, old(transferred)))
        invariant forall j | 0 <= j < |added| - (if stop then 1 else 0) :: Completed(added, j, server, old(transferred))
        decreases images - next
      {
        ReachesClaim(start, View(Idle));
        if stop || transferred >= TOTAL_BYTES {
          return;
        }
        var index := next;
        next := next + 1;
        if index >= images {
          return;
        }
        ghost var sending := View(Sending(index));
        var bytes, ok := Request(index, server(index));
        ReachesThrough(start, sending, View(Finishing(index, bytes, ok)));
        ReachesResult(start, View(Finishing(index, bytes, ok)), index, bytes, ok);
        stop := stop || !ok;
        BytesSnoc(results, Entry(index, bytes));
        BytesSnoc(added, Entry(index, bytes));
        ListedSnoc(added, Entry(index, bytes), server, old(next), old(transferred));
        results, added := results + [Entry(index, bytes)], added + [Entry(index, bytes)];
      }
    }
  }

  /** What the k-th read brings. */
  lemma NextRead(chunks: seq<Choice>, k: nat)
    requires k <= |chunks|
    ensures var read := if k < |chunks| then chunks[k] else Give(0);
            if read.Fail? then Arriving(chunks[k..]) == 0 && Breaks(chunks[k..])
            else if read.n == 0 then Arriving(chunks[k..]) == 0 && !Breaks(chunks[k..])
            else k < |chunks| && Breaks(chunks[k..]) == Breaks(chunks[k + 1..])
                 && Arriving(chunks[k..]) == Min(read.n, 16384) + Arriving(chunks[k + 1..])
  {
    assert k < |chunks| ==> chunks[k..][1..] == chunks[k + 1..];
  }

  /** The room that entry `j` found, when the counter stood at `before` ahead of all entries. */
  function RoomOf(added: seq<Entry>, j: nat, before: int): int
    requires j <= |added|
  {
    RoomAt(before + Bytes(added[..j]))
  }

  predicate Completed(added: seq<Entry>, j: nat, server: nat -> Answer, before: int)
    requires j < |added|
  {
    server(added[j].index).Completes(RoomOf(added, j, before))
  }

  /** The entries have the indices from `first` on, and the bytes taken of each answer. */
  predicate Listed(added: seq<Entry>, server: nat -> Answer, first: nat, before: int) {
    forall j: nat | j < |added| ::
      added[j].index == first + j && added[j].bytes == server(first + j).Taken(RoomOf(added, j, before))
  }

  lemma NoneListed(server: nat -> Answer, first: nat, before: int)
    ensures Listed([], server, first, before) && Bytes([]) == 0
  {
  }

  lemma ListedSnoc(added: seq<Entry>, e: Entry, server: nat -> Answer, first: nat, before: int)
    requires Listed(added, server, first, before) && e.index == first + |added|
    requires e.bytes == server(e.index).Taken(RoomAt(before + Bytes(added)))
    ensures Listed(added + [e], server, first, before)
    ensures forall j: nat | j < |added| ::
              Completed(added + [e], j, server, before) == Completed(added, j, server, before)
    ensures Completed(added + [e], |added|, server, before)
         == server(e.index).Completes(RoomAt(before + Bytes(added)))
  {
    hide Bytes, Answer.Taken, Answer.Completes, RoomAt;
    var more := added + [e];
    assert more[..|added|] == added;
    forall j: nat | j < |added|
      ensures RoomOf(more, j, before) == RoomOf(added, j, before) && more[j] == added[j]
    {
      assert more[..j] == added[..j];
    }
  }

  lemma RequestSent(start: State, index: nat, accepted: bool)
    requires start.workers == [Sending(index)]
    ensures Reaches(start, start.(workers := [if accepted then Reading(index, 0) else Finishing(index, 0, false)]))
  {
    Single();
    ReachesSelf(start);
    ReachesNext(start, start, if accepted then Give(0) else Fail);
  }

  lemma ReachesThrough(s: State, t: State, u: State)
    requires |s.workers| == 1 && |t.workers| == 1 && Reaches(s, t) && Reaches(t, u)
    ensures Reaches(s, u)
  {
    hide StepWorker;
    var a, b :| Alone(s, a) == t && Alone(t, b) == u;
    AloneAppend(s, a, b);
  }

  lemma {:induction false} AloneAppend(s: State, a: seq<Choice>, b: seq<Choice>)
    requires |s.workers| == 1
    ensures Alone(s, a + b) == Alone(Alone(s, a), b)
    decreases |b|
  {
    hide StepWorker;
    if b == [] {
      assert a + b == a;
    } else {
      assert (a + b)[..|a + b| - 1] == a + b[..|b| - 1];
      AloneAppend(s, a, b[..|b| - 1]);
    }
  }

  lemma BytesSnoc(results: seq<Entry>, e: Entry)
    ensures Bytes(results + [e]) == Bytes(results) + e.bytes
  {
    assert (results + [e])[..|results|] == results;
  }

  // --------------------------------------------------------------- invariant

  predicate GoodWorker(s: State, w: Worker) {
    && (w.HasIndex() ==> w.index < s.next && w.index < s.images)
    && w.Kept() + w.Outstanding() <= IMAGE_BYTES
    && (w.Reserving? ==> 0 < w.desired <= BUFFER && w.bytes + w.desired <= IMAGE_BYTES)
    && (w.Reserved? || w.Got? || w.Refused? ==> 0 < w.reserved <= BUFFER)
    && (w.Got? ==> w.length <= w.reserved)
  }

  /** No index belongs to two requests, running or finished. */
  predicate Distinct(s: State) {
    && (forall i, j | 0 <= i < j < |s.workers| ::
        s.workers[i].HasIndex() && s.workers[j].HasIndex()
        ==> s.workers[i].index != s.workers[j].index)
    && (forall i, k | 0 <= i < |s.workers| && 0 <= k < |s.results| ::
        s.workers[i].HasIndex()
        ==> s.workers[i].index != s.results[k].index)
    && (forall k, l | 0 <= k < l < |s.results| :: s.results[k].index != s.results[l].index)
  }

  predicate GoodResults(s: State) {
    forall k | 0 <= k < |s.results| :: s.results[k].index < s.next && s.results[k].index < s.images
        && s.results[k].bytes <= IMAGE_BYTES
  }

  ghost predicate Invariant(s: State) {
    && s.transferred == s.past + Bytes(s.results) + Load(s.workers)
    && s.transferred <= TOTAL_BYTES
    && (forall i | 0 <= i < |s.workers| :: GoodWorker(s, s.workers[i]))
    && GoodResults(s) && Distinct(s)
  }

  /** A worker other than i is as good as before: only `next` can have moved, and only forward. */
  lemma OthersKeep(s: State, t: State, i: nat)
    requires i < |s.workers| == |t.workers| && t.next >= s.next && t.images == s.images
               && t.workers == s.workers[i := t.workers[i]]
    requires forall j | 0 <= j < |s.workers| :: GoodWorker(s, s.workers[j])
    requires GoodWorker(t, t.workers[i])
    ensures forall j | 0 <= j < |t.workers| :: GoodWorker(t, t.workers[j])
  {
    forall j | 0 <= j < |t.workers| && j != i
      ensures GoodWorker(t, t.workers[j])
    {
      assert GoodWorker(s, s.workers[j]);
    }
  }

  /** What one step adds to the counter is what it adds to this worker's bytes and to the results. */
  lemma StepBalances(s: State, i: nat, choice: Choice)
    requires i < |s.workers| && GoodWorker(s, s.workers[i]) && s.transferred <= TOTAL_BYTES
    ensures var t := StepWorker(s, i, choice); var v, w := s.workers[i], t.workers[i];
            && t.workers == s.workers[i := w] && t.past == s.past && t.transferred <= TOTAL_BYTES
            && t.transferred - s.transferred
                == w.Kept() + w.Outstanding() - v.Kept() - v.Outstanding() + Bytes(t.results) - Bytes(s.results)
  {
    hide Bytes;
    if s.workers[i].Pushing? {
      BytesSnoc(s.results, Entry(s.workers[i].index, s.workers[i].bytes));
    }
  }

  lemma StepCounts(s: State, i: nat, choice: Choice)
    requires Invariant(s) && i < |s.workers|
    ensures var t := StepWorker(s, i, choice);
            t.transferred == t.past + Bytes(t.results) + Load(t.workers) && t.transferred <= TOTAL_BYTES
  {
    assert GoodWorker(s, s.workers[i]);
    hide StepWorker, GoodWorker, Distinct, GoodResults, Bytes;
    StepBalances(s, i, choice);
    LoadUpdate(s.workers, i, StepWorker(s, i, choice).workers[i]);
  }

  lemma StepWorkers(s: State, i: nat, choice: Choice)
    requires Invariant(s) && i < |s.workers|
    ensures var t := StepWorker(s, i, choice);
            (forall j | 0 <= j < |t.workers| :: GoodWorker(t, t.workers[j])) && GoodResults(t)
  {
    hide Bytes, Load, Distinct;
    var t := StepWorker(s, i, choice);
    assert GoodWorker(s, s.workers[i]);
    OthersKeep(s, t, i);
  }

  lemma StepDistinct(s: State, i: nat, choice: Choice)
    requires Invariant(s) && i < |s.workers|
    ensures Distinct(StepWorker(s, i, choice))
  {
    hide Bytes, Load;
    var t := StepWorker(s, i, choice);
    var w := t.workers[i];
    assert GoodWorker(s, s.workers[i]);
    forall j | 0 <= j < |s.workers| && j != i
      ensures t.workers[j] == s.workers[j]
                && (s.workers[j].HasIndex() && w.HasIndex() ==> w.index != s.workers[j].index)
    {
      assert GoodWorker(s, s.workers[j]);
    }
  }

  lemma NextKeeps(s: State, a: Action)
    requires Invariant(s)
    ensures Invariant(Next(s, a))
  {
    hide Bytes, Load, Distinct, GoodWorker, GoodResults, StepWorker;
    match a
    case Step(i, choice) =>
      if i < |s.workers| {
        StepCounts(s, i, choice);
        StepWorkers(s, i, choice);
        StepDistinct(s, i, choice);
      }
    case NewRound(concurrency) => RoundKeeps(s, concurrency);
  }

  lemma RoundKeeps(s: State, concurrency: nat)
    requires Invariant(s)
    ensures Invariant(Next(s, NewRound(concurrency)))
  {
    if RoundOver(s) && !s.stop {
      LoadOfExited(s.workers);
      LoadOfNew(concurrency);
    }
  }

  lemma {:induction false} RunKeeps(images: nat, actions: seq<Action>)
    ensures Invariant(Run(images, actions))
  {
    if actions != [] {
      RunKeeps(images, actions[..|actions| - 1]);
      NextKeeps(Run(images, actions[..|actions| - 1]), actions[|actions| - 1]);
    }
  }

  // ---------------------------------------------------------------- theorems

  /** At every moment the counter is what was kept plus what is reserved, and the budget is never exceeded. */
  lemma CounterIsExact(images: nat, actions: seq<Action>)
    ensures var s := Run(images, actions);
            s.transferred == s.past + Bytes(s.results) + Load(s.workers) && 0 <= s.transferred <= 67108864
  {
    RunKeeps(images, actions);
  }

  /** No request, running or finished, exceeds the image budget, even counting what it has reserved. */
  lemma RequestsAreBounded(images: nat, actions: seq<Action>, i: nat, k: nat)
    ensures var s := Run(images, actions);
            && (i < |s.workers| ==> s.workers[i].Kept() + s.workers[i].Outstanding() <= 4194304)
            && (k < |s.results| ==> s.results[k].bytes <= 4194304)
  {
    RunKeeps(images, actions);
    var s := Run(images, actions);
    assert i < |s.workers| ==> GoodWorker(s, s.workers[i]);
  }

  /** Within a round no index is claimed twice, and only urls that exist are requested. */
  lemma IndicesAreUnique(images: nat, actions: seq<Action>)
    ensures var s := Run(images, actions); Distinct(s) && GoodResults(s)
  {
    RunKeeps(images, actions);
  }

  /** When every worker has left, the counter is exactly the bytes of all results, failed requests included. */
  lemma RoundBalances(images: nat, actions: seq<Action>)
    requires RoundOver(Run(images, actions))
    ensures var s := Run(images, actions); s.transferred == s.past + Bytes(s.results)
  {
    RunKeeps(images, actions);
    LoadOfExited(Run(images, actions).workers);
  }

  // --------------------------------------------------------- a complete round

  /** The index is with a worker, or has its result. */
  predicate Taken(s: State, n: nat) {
    || (exists i :: 0 <= i < |s.workers| && s.workers[i].HasIndex() && s.workers[i].index == n)
    || (exists k :: 0 <= k < |s.results| && s.results[k].index == n)
  }

  /** Unless the comparison was stopped, no claimed index is lost, and workers do not all leave early. */
  ghost predicate Complete(s: State) {
    s.stop
    || (&& (forall n: nat | n < s.next && n < s.images :: Taken(s, n))
        && (RoundOver(s) && s.workers != [] ==> s.next >= s.images || s.transferred >= 67108864))
  }

  /** A step keeps an index with its worker, or turns it into a result. */
  lemma StepTakes(s: State, i: nat, choice: Choice, n: nat)
    requires i < |s.workers| && Taken(s, n) && !StepWorker(s, i, choice).stop
    ensures Taken(StepWorker(s, i, choice), n)
  {
    var t := StepWorker(s, i, choice);
    if k :| 0 <= k < |s.results| && s.results[k].index == n {
      assert t.results[k].index == n;
    } else {
      var j :| 0 <= j < |s.workers| && s.workers[j].HasIndex() && s.workers[j].index == n;
      if j == i && s.workers[i].Pushing? {
        assert t.results[|s.results|].index == n;
      } else {
        assert t.workers[j].HasIndex() && t.workers[j].index == n;
      }
    }
  }

  lemma StepCompletes(s: State, i: nat, choice: Choice)
    requires Complete(s) && i < |s.workers|
    ensures Complete(StepWorker(s, i, choice))
  {
    hide Taken;
    var t := StepWorker(s, i, choice);
    if !t.stop {
      assert !s.stop;
      forall n: nat | n < t.next && n < t.images
        ensures Taken(t, n)
      {
        if n < s.next {
          StepTakes(s, i, choice, n);
        } else {
          ClaimTakes(s, i, choice);
        }
      }
      if RoundOver(t) {
        assert t.workers[i] == Exited;
      }
    }
  }

  lemma ClaimTakes(s: State, i: nat, choice: Choice)
    requires i < |s.workers| && s.workers[i].Claiming? && s.next < s.images
    ensures Taken(StepWorker(s, i, choice), s.next)
  {
    assert StepWorker(s, i, choice).workers[i] == Claimed(s.next);
  }

  lemma {:induction false} RunCompletes(images: nat, actions: seq<Action>)
    ensures Complete(Run(images, actions))
  {
    hide Taken, StepWorker, Bytes;
    if actions != [] {
      RunCompletes(images, actions[..|actions| - 1]);
      var s, a := Run(images, actions[..|actions| - 1]), actions[|actions| - 1];
      match a
      case Step(i, choice) =>
        if i < |s.workers| {
          StepCompletes(s, i, choice);
        }
      case NewRound(concurrency) =>
        if RoundOver(s) && !s.stop && concurrency > 0 {
          assert Next(s, a).workers[0] == Idle;
        }
    }
  }

  /** A round that ends with at least one worker, not stopped and within the budget, has exactly one result for every
      url. */
  lemma RoundIsComplete(images: nat, actions: seq<Action>, n: nat)
    requires var s := Run(images, actions);
             RoundOver(s) && s.workers != [] && !s.stop && s.transferred < 67108864 && n < images
    ensures var results := Run(images, actions).results;
            && (exists k :: 0 <= k < |results| && results[k].index == n)
            && (forall k, l | 0 <= k < l < |results| :: results[k].index != results[l].index)
  {
    hide Run, Load, Bytes;
    RunKeeps(images, actions);
    RunCompletes(images, actions);
    SameImages(images, actions);
    var s := Run(images, actions);
    assert Taken(s, n);
  }

  lemma {:induction false} SameImages(images: nat, actions: seq<Action>)
    ensures Run(images, actions).images == images
  {
    if actions != [] {
      SameImages(images, actions[..|actions| - 1]);
    }
  }

  // -------------------------------------------------------------------- stop

  /** How many steps a worker can still take once the stop flag is up. */
  function Rank(w: Worker): nat {
    match w
    case Exited => 0
    case Idle => 1
    case Pushing(_, _) => 2
    case Finishing(_, _, _) => 3
    case Refused(_, _, _) => 4
    case Reading(_, _) => 4
    case Got(_, _, _, _) => 5
    case Reserved(_, _, _) => 6
    case Sending(_) => 7
    case Reserving(_, _, _) => 7
    case Claimed(_) => 8
    case Claiming => 9
    case AskBudget => 10
  }

  function TotalRank(workers: seq<Worker>): nat {
    if workers == [] then 0 else TotalRank(workers[..|workers| - 1]) + Rank(workers[|workers| - 1])
  }

  lemma {:induction false} RankUpdate(workers: seq<Worker>, i: nat, w: Worker)
    requires i < |workers|
    ensures TotalRank(workers[i := w]) + Rank(workers[i]) == TotalRank(workers) + Rank(w)
  {
    var last := |workers| - 1;
    if i == last {
      assert workers[i := w][..last] == workers[..last];
    } else {
      assert workers[i := w][..last] == workers[..last][i := w];
      RankUpdate(workers[..last], i, w);
    }
  }

  /** After a failure the comparison drains: the flag stays up, every step that changes anything brings some
      worker closer to its exit, no request is sent, and a worker past its last check reserves at most once more. */
  lemma StopDrains(s: State, i: nat, choice: Choice)
    requires Invariant(s) && s.stop && i < |s.workers|
    ensures var t := StepWorker(s, i, choice);
            && t.stop
            && (t != s ==> TotalRank(t.workers) < TotalRank(s.workers))
            && (t.transferred > s.transferred ==> s.workers[i].Reserving? && !t.workers[i].Reserving?)
            && (t.workers[i].Reserving? || t.workers[i].Sending? ==> t == s)
            && t.workers == s.workers[i := t.workers[i]] && t.past == s.past
  {
    hide TotalRank, Load, Bytes, Distinct, GoodResults;
    var t := StepWorker(s, i, choice);
    assert GoodWorker(s, s.workers[i]);
    RankUpdate(s.workers, i, t.workers[i]);
  }

  /** Once the flag is up it stays up, in this round and for good: whatever happens, no further request is sent
      and no further round begins. */
  lemma {:induction false} StoppedForGood(images: nat, actions: seq<Action>, more: seq<Action>)
    requires Run(images, actions).stop
    ensures var s, t := Run(images, actions), Run(images, actions + more);
            && t.stop && t.past == s.past && |t.workers| == |s.workers|
            && forall i | 0 <= i < |t.workers| :: t.workers[i].Sending? ==> t.workers[i] == s.workers[i]
  {
    hide StepWorker, Next, Bytes;
    if more == [] {
      assert actions + more == actions;
    } else {
      var before, a := more[..|more| - 1], more[|more| - 1];
      StoppedForGood(images, actions, before);
      assert (actions + more)[..|actions + more| - 1] == actions + before;
      StoppedStep(images, actions + before, a);
    }
  }

  lemma StoppedStep(images: nat, actions: seq<Action>, a: Action)
    requires Run(images, actions).stop
    ensures var s := Run(images, actions); var t := Next(s, a);
            && t.stop && t.past == s.past && |t.workers| == |s.workers|
            && forall i | 0 <= i < |t.workers| :: t.workers[i].Sending? ==> t.workers[i] == s.workers[i]
  {
    hide StepWorker, Run, Bytes, TotalRank;
    RunKeeps(images, actions);
    var s := Run(images, actions);
    if a.Step? && a.id < |s.workers| {
      StopDrains(s, a.id, a.choice);
    }
  }
}
