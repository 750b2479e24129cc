/** Navigation checkpoints (`LocalControl`): any number of saves race one another and a clean exit.
    A save takes the lock, checks the closing flag and its age, writes a temporary file and renames it;
    a clean exit raises the flag, takes the lock and removes both files. Every step is one action of
    one thread, any action of the file system may fail, and the process may die between any two. */
module CheckpointStore {
  import opened Common

  const MAX_TABS: nat := 64
  const MAX_TEXT: nat := 128 * 1024

  /** A JSON value as a checkpoint sees it: its fields, where they have the right type, and the length of its text;
      `rest` stands for everything else in it. */
  datatype Checkpoint = Checkpoint(version: Option<nat>, savedAt: Option<nat>, tabs: Option<nat>, size: nat,
      rest: string) {
    /** `valid_checkpoint`. */
    predicate Valid() {
      version == Some(1) && savedAt.Some? && tabs.Some? && tabs.value <= MAX_TABS && size <= MAX_TEXT
    }

    /** A missing time is before every time. */
    function Time(): int {
      if savedAt.Some? then savedAt.value else -1
    }
  }

  /** What a file holds: the text of one JSON value, or anything that does not parse. */
  datatype Content = Whole(checkpoint: Checkpoint) | Broken

  /** A failed clear got past the named file, or did not. */
  datatype Outcome = SaveOk(savedAt: int) | SaveFailed | SaveRefused | ClearOk | ClearFailed(namedRemoved: bool)

  datatype Thread =
    | Saving(c: Checkpoint)     // save: waits for the lock
    | Deciding(c: Checkpoint)   // holds the lock, has decided nothing
    | Writing(c: Checkpoint)    // the temporary file is being written
    | Renaming(c: Checkpoint)   // the temporary file is complete
    | Storing(c: Checkpoint)    // renamed, memory is not updated yet
    | Closing                   // clear: about to raise the flag
    | Clearing                  // waits for the lock
    | RemovingNamed | RemovingTemporary | Forgetting // holds the lock
    | Done(outcome: Outcome)

  datatype State = State(closing: bool, memory: Option<Checkpoint>, lock: Option<nat>,
                         named: Option<Content>, temporary: Option<Content>, threads: seq<Thread>)

  /** A thread is started, takes its next step (which may fail), or the process dies and is started again. */
  datatype Action = Spawn(thread: Thread) | Step(id: nat, fails: bool) | Restart

  /** What `install` reads back: a text of bounded length that parses as a valid checkpoint. */
  function Load(file: Option<Content>): (c: Option<Checkpoint>)
    ensures c.Some? ==> c.value.Valid() && file == Some(Whole(c.value))
  {
    if file.Some? && file.value.Whole? && file.value.checkpoint.Valid() then Some(file.value.checkpoint) else None
  }

  /** What the command takes and a start reads back, in numbers: version 1, a time, at most 64 tabs and 128 KiB. */
  predicate Readable(c: Checkpoint) {
    c.version == Some(1) && c.savedAt.Some? && c.tabs.Some? && c.tabs.value <= 64 && c.size <= 131072
  }

  function SavedAt(c: Option<Checkpoint>): int {
    if c.Some? then c.value.Time() else -1
  }

  function Start(named: Option<Content>, temporary: Option<Content>): State {
    State(false, Load(named), None, named, temporary, [])
  }

  function StepThread(s: State, i: nat, fails: bool): (t: State)
    requires i < |s.threads|
    ensures |t.threads| == |s.threads|
  {
    match s.threads[i]
    case Saving(c) =>
      if s.lock.Some? then s else s.(lock := Some(i), threads := s.threads[i := Deciding(c)])
    case Deciding(c) =>
      if s.closing || SavedAt(s.memory) > c.Time()
          then s.(lock := None, threads := s.threads[i := Done(SaveOk(c.Time()))])
      else if fails then s.(lock := None, threads := s.threads[i := Done(SaveFailed)])
      else s.(temporary := Some(Broken), threads := s.threads[i := Writing(c)])
    case Writing(c) =>
      if fails then s.(lock := None, threads := s.threads[i := Done(SaveFailed)])
      else s.(temporary := Some(Whole(c)), threads := s.threads[i := Renaming(c)])
    case Renaming(c) =>
      if fails then s.(lock := None, threads := s.threads[i := Done(SaveFailed)])
      else s.(named := s.temporary, temporary := None, threads := s.threads[i := Storing(c)])
    case Storing(c) =>
      s.(memory := Some(c), lock := None, threads := s.threads[i := Done(SaveOk(c.Time()))])
    case Closing => s.(closing := true, threads := s.threads[i := Clearing])
    case Clearing =>
      if s.lock.Some? then s else s.(lock := Some(i), threads := s.threads[i := RemovingNamed])
    case RemovingNamed =>
      if fails then s.(lock := None, threads := s.threads[i := Done(ClearFailed(false))])
      else s.(named := None, threads := s.threads[i := RemovingTemporary])
    case RemovingTemporary =>
      if fails then s.(lock := None, threads := s.threads[i := Done(ClearFailed(true))])
      else s.(temporary := None, threads := s.threads[i := Forgetting])
    case Forgetting =>
      s.(memory := None, lock := None, threads := s.threads[i := Done(ClearOk)])
    case Done(_) => s
  }

  function Next(s: State, a: Action): State {
    match a
    case Spawn(thread) =>
      if thread.Closing? || (thread.Saving? && thread.c.Valid()) then s.(threads := s.threads + [thread])
      else if thread.Saving? then s.(threads := s.threads + [Done(SaveRefused)]) // `work_checkpoint_save` checks first
      else s
    case Step(i, fails) => if i < |s.threads| then StepThread(s, i, fails) else s
    case Restart => Start(s.named, s.temporary)
  }

  function Run(s: State, actions: seq<Action>): State {
    if actions == [] then s else Next(Run(s, actions[..|actions| - 1]), actions[|actions| - 1])
  }

  // ------------------------------------------------------------ in-place form

  /** One thread taking its steps with no other step in between; `fails[k]` makes the k-th of them fail. */
  function Alone(s: State, fails: seq<bool>): State
    requires |s.threads| == 1
    decreases fails
  {
    if fails == [] then s else Alone(StepThread(s, 0, fails[0]), fails[1..])
  }

  /** The object shared by all commands. The lock is free between calls; the methods are the code of one
      thread from taking the lock to releasing it, and leave what that thread's steps alone would leave. */
  class LocalControl {
    var closing: bool
    var checkpoint: Option<Checkpoint>
    var named: Option<Content>
    var temporary: Option<Content>

    function View(thread: Thread): State
      reads this
    {
      State(closing, checkpoint, None, named, temporary, [thread])
    }

    predicate Matches(s: State)
      reads this
    {
      closing == s.closing && checkpoint == s.memory && named == s.named && temporary == s.temporary && s.lock == None
    }

    constructor Install(named: Option<Content>, temporary: Option<Content>)
      ensures Matches(Start(named, temporary))
      ensures this.named == named && this.temporary == temporary && !closing
      ensures forall c :: checkpoint == Some(c) <==> named == Some(Whole(c)) && Readable(c)
    {
      closing := false;
      checkpoint := Load(named);
      this.named := named;
      this.temporary := temporary;
    }

    method SaveCheckpoint(c: Checkpoint, openFails: bool, writeFails: bool, renameFails: bool)
        returns (outcome: Outcome)
      modifies this
      ensures var s := Alone(old(View(Saving(c))), [false, openFails, writeFails, renameFails, false]);
              Matches(s) && s.threads == [Done(outcome)]
      ensures closing == old(closing)
      ensures old(closing) || SavedAt(old(checkpoint)) > c.Time() ==> outcome == SaveOk(c.Time()) && unchanged(this)
      ensures !old(closing) && SavedAt(old(checkpoint)) <= c.Time() ==>
                if openFails || writeFails || renameFails
                then outcome == SaveFailed && named == old(named) && checkpoint == old(checkpoint)
                     && (openFails ==> temporary == old(temporary))
                     && (!openFails ==> temporary == Some(if writeFails then Broken else Whole(c)))
                else outcome == SaveOk(c.Time()) && named == Some(Whole(c)) && checkpoint == Some(c)
                     && temporary == None
    {
      AloneFive(View(Saving(c)), false, openFails, writeFails, renameFails, false);
      if closing {
        return SaveOk(c.Time());
      }
      if SavedAt(checkpoint) > c.Time() {
        return SaveOk(c.Time());
      }
      if openFails {
        return SaveFailed;
      }
      temporary := Some(Broken);
      if writeFails {
        return SaveFailed;
      }
      temporary := Some(Whole(c));
      if renameFails {
        return SaveFailed;
      }
      named := temporary;
      temporary := None;
      checkpoint := Some(c);
      return SaveOk(c.Time());
    }

    /** The command: an invalid checkpoint is refused before anything is touched. */
    method WorkCheckpointSave(c: Checkpoint, openFails: bool, writeFails: bool, renameFails: bool)
        returns (outcome: Outcome)
      modifies this
      ensures !Readable(c) <==> outcome == SaveRefused
      ensures !Readable(c) ==> unchanged(this)
      ensures outcome.SaveOk? && !old(closing) && SavedAt(old(checkpoint)) <= c.Time() ==>
                named == Some(Whole(c)) && checkpoint == Some(c)
      ensures Readable(c) ==>
                var s := Alone(old(View(Saving(c))), [false, openFails, writeFails, renameFails, false]);
                Matches(s) && s.threads == [Done(outcome)]
    {
      if !c.Valid() {
        return SaveRefused;
      }
      outcome := SaveCheckpoint(c, openFails, writeFails, renameFails);
    }

    method ClearForCleanExit(namedFails: bool, temporaryFails: bool) returns (outcome: Outcome)
      modifies this
      ensures var s := Alone(old(View(Closing)), [false, false, namedFails, temporaryFails, false]);
              Matches(s) && s.threads == [Done(outcome)]
      ensures closing
      ensures if namedFails then outcome == ClearFailed(false) && named == old(named) && temporary == old(temporary)
                                 && checkpoint == old(checkpoint)
              else if temporaryFails then outcome == ClearFailed(true) && named == None && temporary == old(temporary)
                                          && checkpoint == old(checkpoint)
              else outcome == ClearOk && named == None && temporary == None && checkpoint == None
    {
      AloneFive(View(Closing), false, false, namedFails, temporaryFails, false);
      closing := true;
      if namedFails {
        return ClearFailed(false);
      }
      named := None;
      if temporaryFails {
        return ClearFailed(true);
      }
      temporary := None;
      checkpoint := None;
      return ClearOk;
    }
  }

  lemma AloneFive(s: State, a: bool, b: bool, c: bool, d: bool, e: bool)
    requires |s.threads| == 1
    ensures Alone(s, [a, b, c, d, e])
         == StepThread(StepThread(StepThread(StepThread(StepThread(s, 0, a), 0, b), 0, c), 0, d), 0, e)
  {
    hide StepThread;
    var s1 := StepThread(s, 0, a);
    var s2 := StepThread(s1, 0, b);
    var s3 := StepThread(s2, 0, c);
    var s4 := StepThread(s3, 0, d);
    assert Alone(s, [a, b, c, d, e]) == Alone(s1, [b, c, d, e]) by { assert [a, b, c, d, e][1..] == [b, c, d, e]; }
    assert Alone(s1, [b, c, d, e]) == Alone(s2, [c, d, e]) by { assert [b, c, d, e][1..] == [c, d, e]; }
    assert Alone(s2, [c, d, e]) == Alone(s3, [d, e]) by { assert [c, d, e][1..] == [d, e]; }
    assert Alone(s3, [d, e]) == Alone(s4, [e]) by { assert [d, e][1..] == [e]; }
    assert Alone(s4, [e]) == Alone(StepThread(s4, 0, e), []) by { assert [e][1..] == []; }
  }

  // --------------------------------------------------------------- invariant

  predicate Holds(t: Thread) {
    t.Deciding? || t.Writing? || t.Renaming? || t.Storing? || t.RemovingNamed? || t.RemovingTemporary? || t.Forgetting?
  }

  /** The thread that holds the lock is in the middle of a save. */
  predicate Saves(s: State) {
    s.lock.Some? && s.lock.value < |s.threads| && var t := s.threads[s.lock.value];
        t.Writing? || t.Renaming? || t.Storing?
  }

  /** What is known about the files and the memory while the lock is in the hands of `t`. */
  ghost predicate Held(s: State, t: Thread) {
    match t
    case Deciding(c) => Agrees(s) && c.Valid()
    case Writing(c) => s.memory == Load(s.named) && SavedAt(s.memory) <= c.Time() && c.Valid()
    case Renaming(c) => s.memory == Load(s.named) && SavedAt(s.memory) <= c.Time() && c.Valid()
        && s.temporary == Some(Whole(c))
    case Storing(c) => s.named == Some(Whole(c)) && c.Valid()
    case RemovingNamed => Agrees(s) && s.closing
    case RemovingTemporary => s.named == None && s.closing
    case Forgetting => s.named == None && s.temporary == None && s.closing
    case _ => false
  }

  /** Some clear has removed the named file and failed on the temporary one, as it reported. */
  ghost predicate HalfCleared(s: State) {
    exists i :: 0 <= i < |s.threads| && s.threads[i] == Done(ClearFailed(true))
  }

  ghost predicate Agrees(s: State) {
    s.memory == Load(s.named) || HalfCleared(s)
  }

  predicate Lawful(s: State, t: Thread) {
    match t
    case Saving(c) => c.Valid()
    case Clearing => s.closing
    case Done(SaveOk(at)) => at >= 0 && (s.closing || SavedAt(Load(s.named)) >= at)
    case Done(ClearOk) => s.closing && s.named == None && s.temporary == None && !Saves(s)
    case Done(ClearFailed(namedRemoved)) => s.closing && (namedRemoved ==> s.named == None && !Saves(s))
    case _ => true
  }

  ghost predicate Invariant(s: State) {
    && (s.named.Some? ==> s.named.value.Whole? && s.named.value.checkpoint.Valid())
    && (s.lock.Some? ==> s.lock.value < |s.threads| && Held(s, s.threads[s.lock.value]))
    && (s.lock.None? ==> Agrees(s))
    && (forall i | 0 <= i < |s.threads| :: Holds(s.threads[i]) ==> s.lock == Some(i))
    && (forall i | 0 <= i < |s.threads| :: Lawful(s, s.threads[i]))
  }

  lemma NextKeeps(s: State, a: Action)
    requires Invariant(s)
    ensures Invariant(Next(s, a))
  {
    match a
    case Step(id, fails) =>
      if id < |s.threads| {
        hide StepThread, Invariant;
        StepKeeps(s, id, fails);
      }
    case Spawn(thread) => SpawnKeeps(s, thread);
    case Restart =>
  }

  lemma SpawnKeeps(s: State, thread: Thread)
    requires Invariant(s)
    ensures Invariant(Next(s, Spawn(thread)))
  {
    hide HalfCleared, Checkpoint.Valid, Checkpoint.Time;
    var t := Next(s, Spawn(thread));
    forall i | 0 <= i < |t.threads|
      ensures Lawful(t, t.threads[i]) && (Holds(t.threads[i]) ==> t.lock == Some(i))
    {
      if i < |s.threads| {
        assert t.threads[i] == s.threads[i] && Lawful(s, s.threads[i]);
      }
    }
    HalfKept(s, t);
  }

  /** A clear that failed between its removals stays on record. */
  lemma HalfKept(s: State, t: State)
    requires |s.threads| <= |t.threads|
    requires forall i | 0 <= i < |s.threads| && s.threads[i].Done? :: t.threads[i] == s.threads[i]
    ensures HalfCleared(s) ==> HalfCleared(t)
  {
  }

  lemma StepKeeps(s: State, i: nat, fails: bool)
    requires Invariant(s) && i < |s.threads|
    ensures Invariant(StepThread(s, i, fails))
  {
    hide Invariant, StepThread;
    match s.threads[i]
    case Saving(_) => WaitingKeeps(s, i, fails);
    case Clearing => WaitingKeeps(s, i, fails);
    case Closing => WaitingKeeps(s, i, fails);
    case Done(_) => WaitingKeeps(s, i, fails);
    case Deciding(_) => SaveKeeps(s, i, fails);
    case Writing(_) => SaveKeeps(s, i, fails);
    case Renaming(_) => SaveKeeps(s, i, fails);
    case Storing(_) => SaveKeeps(s, i, fails);
    case _ => ClearKeeps(s, i, fails);
  }

  /** What the other threads may rely on survives the step of thread i. */
  lemma OthersKeep(s: State, t: State, i: nat)
    requires Invariant(s) && i < |s.threads| == |t.threads| && t.threads == s.threads[i := t.threads[i]]
    requires t.closing == s.closing || t.closing
    requires s.closing || SavedAt(Load(t.named)) >= SavedAt(Load(s.named))
    requires s.closing && s.named == None && !Saves(s) ==>
               t.named == None && !Saves(t) && (s.temporary == None ==> t.temporary == None)
    ensures forall j | 0 <= j < |t.threads| && j != i :: Lawful(t, t.threads[j])
  {
    forall j | 0 <= j < |t.threads| && j != i
      ensures Lawful(t, t.threads[j])
    {
      assert t.threads[j] == s.threads[j] && Lawful(s, s.threads[j]);
    }
  }

  lemma WaitingKeeps(s: State, i: nat, fails: bool)
    requires Invariant(s) && i < |s.threads|
    requires var t := s.threads[i]; t.Saving? || t.Clearing? || t.Closing? || t.Done?
    ensures Invariant(StepThread(s, i, fails))
  {
    hide HalfCleared, Checkpoint.Valid, Checkpoint.Time;
    var t := StepThread(s, i, fails);
    assert Lawful(s, s.threads[i]);
    OthersKeep(s, t, i);
    HalfKept(s, t);
  }

  lemma SaveKeeps(s: State, i: nat, fails: bool)
    requires Invariant(s) && i < |s.threads|
    requires var t := s.threads[i]; t.Deciding? || t.Writing? || t.Renaming? || t.Storing?
    ensures Invariant(StepThread(s, i, fails))
  {
    hide HalfCleared;
    var t := StepThread(s, i, fails);
    assert s.lock == Some(i);
    if HalfCleared(s) {
      HalfClearedMeans(s);
    }
    OthersKeep(s, t, i);
    HalfKept(s, t);
  }

  lemma ClearKeeps(s: State, i: nat, fails: bool)
    requires Invariant(s) && i < |s.threads|
    requires var t := s.threads[i]; t.RemovingNamed? || t.RemovingTemporary? || t.Forgetting?
    ensures Invariant(StepThread(s, i, fails))
  {
    var t := StepThread(s, i, fails);
    assert s.lock == Some(i);
    if s.threads[i].RemovingTemporary? && fails {
      assert t.threads[i] == Done(ClearFailed(true)) && HalfCleared(t);
    }
    hide HalfCleared;
    OthersKeep(s, t, i);
    HalfKept(s, t);
  }

  lemma {:induction false} RunKeeps(s: State, actions: seq<Action>)
    requires Invariant(s)
    ensures Invariant(Run(s, actions))
  {
    if actions != [] {
      RunKeeps(s, actions[..|actions| - 1]);
      NextKeeps(Run(s, actions[..|actions| - 1]), actions[|actions| - 1]);
    }
  }

  predicate Loadable(named: Option<Content>) {
    named.Some? ==> named.value.Whole? && named.value.checkpoint.Valid()
  }

  /** The state after any actions, from a start in which the named file is absent or a complete valid checkpoint. */
  ghost predicate Reachable(s: State) {
    exists named: Option<Content>, temporary: Option<Content>, actions: seq<Action> ::
      Loadable(named) && s == Run(Start(named, temporary), actions)
  }

  lemma ReachableKeeps(s: State)
    requires Reachable(s)
    ensures Invariant(s)
  {
    var named: Option<Content>, temporary: Option<Content>, actions: seq<Action> :|
      Loadable(named) && s == Run(Start(named, temporary), actions);
    RunKeeps(Start(named, temporary), actions);
  }

  // -------------------------------------------------------------- whose value

  /** The threads of the present process, as they were started. */
  function Spawned(actions: seq<Action>): seq<Thread> {
    if actions == [] then [] else
      var before := Spawned(actions[..|actions| - 1]);
      match actions[|actions| - 1]
      case Spawn(thread) => if thread.Closing? || thread.Saving? then before + [thread] else before
      case Step(_, _) => before
      case Restart => []
  }

  /** A thread is somewhere in what it was started for, and a save still carries its own checkpoint. */
  predicate StageOf(now: Thread, spawned: Thread) {
    match now
    case Saving(c) => spawned == Saving(c) && Readable(c)
    case Deciding(c) => spawned == Saving(c) && Readable(c)
    case Writing(c) => spawned == Saving(c) && Readable(c)
    case Renaming(c) => spawned == Saving(c) && Readable(c)
    case Storing(c) => spawned == Saving(c) && Readable(c)
    case Done(SaveOk(at)) => spawned.Saving? && Readable(spawned.c) && spawned.c.savedAt == Some(at)
    case Done(SaveFailed) => spawned.Saving? && Readable(spawned.c)
    case Done(SaveRefused) => spawned.Saving? && !Readable(spawned.c)
    case _ => spawned == Closing
  }

  predicate Staged(s: State, spawned: seq<Thread>) {
    |s.threads| == |spawned| && forall i | 0 <= i < |spawned| :: StageOf(s.threads[i], spawned[i])
  }

  /** The first start found `c` on disk, or somebody asked to save it. */
  predicate Known(named: Option<Content>, actions: seq<Action>, c: Checkpoint) {
    named == Some(Whole(c)) || Spawn(Saving(c)) in actions
  }

  predicate Traced(s: State, named: Option<Content>, actions: seq<Action>) {
    && (s.memory.Some? ==> Known(named, actions, s.memory.value))
    && (s.named.Some? && s.named.value.Whole? ==> Known(named, actions, s.named.value.checkpoint))
  }

  lemma {:induction false} SpawnedAreAsked(actions: seq<Action>, i: nat)
    requires i < |Spawned(actions)|
    ensures Spawn(Spawned(actions)[i]) in actions
  {
    var last := |actions| - 1;
    if i < |Spawned(actions[..last])| && !actions[last].Restart? {
      SpawnedAreAsked(actions[..last], i);
    }
  }

  lemma StagedStep(s: State, spawned: seq<Thread>, i: nat, fails: bool)
    requires Staged(s, spawned) && i < |s.threads|
    ensures Staged(StepThread(s, i, fails), spawned)
  {
    assert StageOf(s.threads[i], spawned[i]);
    OwnThread(s, i, fails);
    assert StageOf(StepThread(s, i, fails).threads[i], spawned[i]);
    hide StepThread;
    var t := StepThread(s, i, fails);
    forall j | 0 <= j < |spawned|
      ensures StageOf(t.threads[j], spawned[j])
    {
      assert j != i ==> t.threads[j] == s.threads[j];
    }
  }

  /** What a step leaves in memory and on disk was there before, or belongs to the thread that took it. */
  lemma StepMoves(s: State, i: nat, fails: bool)
    requires Invariant(s) && i < |s.threads|
    ensures var t := StepThread(s, i, fails);
            && (t.memory == s.memory || t.memory == None || (s.threads[i].Storing? && t.memory == Some(s.threads[i].c)))
            && (t.named == s.named || t.named == None
                || (s.threads[i].Renaming? && t.named == Some(Whole(s.threads[i].c))))
  {
    assert Holds(s.threads[i]) ==> Held(s, s.threads[i]);
  }

  /** In every run each thread is about its own checkpoint, and nothing else is ever in memory or on disk. */
  lemma {:induction false} RunTraced(named: Option<Content>, temporary: Option<Content>, actions: seq<Action>)
    requires Loadable(named)
    ensures var s := Run(Start(named, temporary), actions);
            Invariant(s) && Staged(s, Spawned(actions)) && Traced(s, named, actions)
  {
    hide Invariant, StepThread;
    RunKeeps(Start(named, temporary), actions) by { StartHolds(named, temporary); }
    if actions != [] {
      var before, a := actions[..|actions| - 1], actions[|actions| - 1];
      RunTraced(named, temporary, before);
      hide Staged, StageOf, Known;
      NextTraced(Run(Start(named, temporary), before), named, before, a);
      assert before + [a] == actions;
    }
  }

  lemma StartHolds(named: Option<Content>, temporary: Option<Content>)
    requires Loadable(named)
    ensures Invariant(Start(named, temporary))
  {
  }

  lemma NextTraced(s: State, named: Option<Content>, before: seq<Action>, a: Action)
    requires Invariant(s) && Staged(s, Spawned(before)) && Traced(s, named, before)
    ensures Staged(Next(s, a), Spawned(before + [a])) && Traced(Next(s, a), named, before + [a])
  {
    assert (before + [a])[..|before|] == before;
    hide Invariant, StepThread, StageOf, Known, Checkpoint.Valid;
    match a
    case Spawn(thread) =>
      TracedLonger(s, named, before, a);
      SpawnStaged(s, Spawned(before), thread);
    case Restart => RestartTraced(s, named, before);
    case Step(i, fails) =>
      if i < |s.threads| {
        StepTraced(s, named, before, i, fails);
      }
      TracedLonger(Next(s, a), named, before, a);
  }

  lemma TracedLonger(s: State, named: Option<Content>, before: seq<Action>, a: Action)
    requires Traced(s, named, before)
    ensures Traced(s, named, before + [a])
  {
  }

  lemma SpawnStaged(s: State, spawned: seq<Thread>, thread: Thread)
    requires Staged(s, spawned)
    ensures Staged(Next(s, Spawn(thread)), if thread.Closing? || thread.Saving? then spawned + [thread] else spawned)
    ensures Next(s, Spawn(thread)).memory == s.memory && Next(s, Spawn(thread)).named == s.named
  {
    assert forall i | 0 <= i < |spawned| :: StageOf(s.threads[i], spawned[i]);
  }

  lemma RestartTraced(s: State, named: Option<Content>, before: seq<Action>)
    requires Traced(s, named, before)
    ensures Staged(Next(s, Restart), []) && Traced(Next(s, Restart), named, before + [Restart])
  {
    hide Known;
    TracedLonger(Next(s, Restart), named, before, Restart);
  }

  lemma StepTraced(s: State, named: Option<Content>, before: seq<Action>, i: nat, fails: bool)
    requires Invariant(s) && Staged(s, Spawned(before)) && Traced(s, named, before) && i < |s.threads|
    ensures Staged(StepThread(s, i, fails), Spawned(before)) && Traced(StepThread(s, i, fails), named, before)
  {
    assert StageOf(s.threads[i], Spawned(before)[i]);
    hide Invariant, StepThread;
    StagedStep(s, Spawned(before), i, fails);
    StepMoves(s, i, fails);
    SpawnedAreAsked(before, i);
  }

  // ---------------------------------------------------------------- theorems

  /** Whatever fails and whenever the process dies, the named file is absent or one complete valid checkpoint,
      and a restart loads exactly it. */
  lemma NamedFileIsWhole(s: State)
    requires Reachable(s)
    ensures Loadable(s.named) && Next(s, Restart).named == s.named
    ensures Next(s, Restart).memory == if s.named.Some? then Some(s.named.value.checkpoint) else None
  {
    ReachableKeeps(s);
  }

  /** No action replaces a checkpoint on disk by an older one. */
  lemma SavedAtNeverDecreases(s: State, a: Action)
    requires Reachable(s) && s.named.Some? && Next(s, a).named.Some?
    ensures SavedAt(Load(Next(s, a).named)) >= SavedAt(Load(s.named))
  {
    ReachableKeeps(s);
    if a.Step? && a.id < |s.threads| {
      assert Holds(s.threads[a.id]) ==> Held(s, s.threads[a.id]);
    }
  }

  /** A save that returned success is on disk, or superseded there by a newer one, until a clean exit begins. */
  lemma SavesAreDurable(s: State, i: nat, at: nat)
    requires Reachable(s) && i < |s.threads| && s.threads[i] == Done(SaveOk(at)) && !s.closing
    ensures s.named.Some? && s.named.value.Whole? && s.named.value.checkpoint.Time() >= at >= 0
  {
    ReachableKeeps(s);
    assert Lawful(s, s.threads[i]);
  }

  /** Whatever checkpoint is on disk or in memory was on disk at the first start or passed to a save; and a
      successful save that no other known checkpoint supersedes has its own value there. */
  lemma OwnValueIsStored(named: Option<Content>, temporary: Option<Content>, actions: seq<Action>, i: nat,
      c: Checkpoint)
    requires Loadable(named)
    ensures var s := Run(Start(named, temporary), actions);
            && (s.memory.Some? ==> Known(named, actions, s.memory.value))
            && (s.named.Some? ==> s.named.value.Whole? && Known(named, actions, s.named.value.checkpoint))
    ensures var s := Run(Start(named, temporary), actions);
            && |Spawned(actions)| == |s.threads|
            && (i < |s.threads| && Spawned(actions)[i] == Saving(c) && s.threads[i].Done?
                && s.threads[i].outcome.SaveOk? && !s.closing
                && (forall d :: Known(named, actions, d) && d != c ==> d.Time() < c.Time())
                ==> s.named == Some(Whole(c)) && (s.lock == None ==> s.memory == Some(c)))
  {
    RunTraced(named, temporary, actions);
    var s := Run(Start(named, temporary), actions);
    if i < |s.threads| && Spawned(actions)[i] == Saving(c) && s.threads[i].Done? && s.threads[i].outcome.SaveOk? {
      assert StageOf(s.threads[i], Spawned(actions)[i]) && Lawful(s, s.threads[i]);
      if !s.closing && HalfCleared(s) {
        HalfClearedMeans(s);
      }
    }
  }

  /** A save that reports success has put its own checkpoint on disk and in memory, unless a clean exit has begun
      or memory held a later one; then it has changed nothing. */
  lemma SuccessStoresItsOwn(named: Option<Content>, temporary: Option<Content>, actions: seq<Action>, id: nat,
      fails: bool, c: Checkpoint)
    requires Loadable(named) && id < |Spawned(actions)| && Spawned(actions)[id] == Saving(c)
    requires var s := Run(Start(named, temporary), actions);
             id < |s.threads| && !s.threads[id].Done? && Next(s, Step(id, fails)).threads[id] == Done(SaveOk(c.Time()))
    ensures var s := Run(Start(named, temporary), actions); var t := Next(s, Step(id, fails));
            || (t.named == Some(Whole(c)) && t.memory == Some(c))
            || ((s.closing || SavedAt(s.memory) > c.Time()) && t.named == s.named && t.memory == s.memory)
  {
    RunTraced(named, temporary, actions);
    var s := Run(Start(named, temporary), actions);
    assert StageOf(s.threads[id], Spawned(actions)[id]);
    assert Holds(s.threads[id]) ==> Held(s, s.threads[id]);
  }

  predicate Succeeds(s: State, a: Action) {
    a.Step? && a.id < |s.threads| && !s.threads[a.id].Done?
    && var t := Next(s, a).threads[a.id]; t.Done? && (t.outcome.SaveOk? || t.outcome.ClearOk?)
  }

  /** A success that releases the lock leaves memory and disk equal, always after a clear; after a save exactly
      when it is not the case that an earlier clear reported failure behind the named file while memory holds a
      checkpoint. */
  lemma SuccessAgreesIff(s: State, a: Action)
    requires Reachable(s) && Succeeds(s, a)
    ensures Next(s, a).lock == None
    ensures Next(s, a).memory == Load(Next(s, a).named) <==>
            Next(s, a).threads[a.id] == Done(ClearOk) || !(HalfCleared(s) && s.memory.Some?)
  {
    ReachableKeeps(s);
    if HalfCleared(s) {
      HalfClearedMeans(s);
    }
    assert Held(s, s.threads[a.id]) && s.lock == Some(a.id);
  }

  /** Once a clear has failed between its two removals, no checkpoint is on disk and none is being saved. */
  lemma HalfClearedMeans(s: State)
    requires Invariant(s) && HalfCleared(s)
    ensures s.closing && s.named == None && !Saves(s)
  {
    var i :| 0 <= i < |s.threads| && s.threads[i] == Done(ClearFailed(true));
    assert Lawful(s, s.threads[i]);
  }

  /** The failing family is real: a save reports success although its memory and the disk differ. */
  lemma HalfClearDisagrees() returns (s: State, a: Action)
    ensures Reachable(s) && Succeeds(s, a) && Next(s, a).memory != Load(Next(s, a).named)
  {
    hide Reachable;
    var old1, new2 := Checkpoint(Some(1), Some(1), Some(0), 40, ""), Checkpoint(Some(1), Some(2), Some(0), 40, "");
    var start := Start(Some(Whole(old1)), None);
    StartReachable(Some(Whole(old1)), None);
    var s1 := Extended(start, Spawn(Closing));
    var s2 := Extended(s1, Step(0, false));
    var s3 := Extended(s2, Step(0, false));
    var s4 := Extended(s3, Step(0, false));
    var s5 := Extended(s4, Step(0, true));
    var s6 := Extended(s5, Spawn(Saving(new2)));
    s := Extended(s6, Step(1, false));
    a := Step(1, false);
  }

  lemma StartReachable(named: Option<Content>, temporary: Option<Content>)
    requires Loadable(named)
    ensures Reachable(Start(named, temporary))
  {
    assert Start(named, temporary) == Run(Start(named, temporary), []);
  }

  lemma Extended(s: State, a: Action) returns (t: State)
    requires Reachable(s)
    ensures t == Next(s, a) && Reachable(t)
  {
    t := Next(s, a);
    var named: Option<Content>, temporary: Option<Content>, actions: seq<Action> :|
      Loadable(named) && s == Run(Start(named, temporary), actions);
    assert (actions + [a])[..|actions|] == actions;
    assert t == Run(Start(named, temporary), actions + [a]);
  }

  /** After a successful clear, no later step of this process brings either file back. */
  lemma {:induction false} ClearedStaysCleared(s: State, i: nat, actions: seq<Action>)
    requires Reachable(s) && i < |s.threads| && s.threads[i] == Done(ClearOk) && forall a | a in actions :: !a.Restart?
    ensures var t := Run(s, actions);
              i < |t.threads| && t.threads[i] == Done(ClearOk) && t.named == None && t.temporary == None
  {
    hide Invariant, Next;
    ReachableKeeps(s);
    RunKeeps(s, actions);
    if actions != [] {
      var before := actions[..|actions| - 1];
      ClearedStaysCleared(s, i, before);
      DoneStays(Run(s, before), i, actions[|actions| - 1]);
    }
    LawfulThread(Run(s, actions), i);
  }

  lemma DoneStays(s: State, i: nat, a: Action)
    requires i < |s.threads| && s.threads[i].Done? && !a.Restart?
    ensures i < |Next(s, a).threads| && Next(s, a).threads[i] == s.threads[i]
  {
    if a.Step? && a.id < |s.threads| {
      OwnThread(s, a.id, a.fails);
    }
    hide StepThread;
  }

  /** A step changes only its own thread, and a finished thread takes none. */
  lemma OwnThread(s: State, i: nat, fails: bool)
    requires i < |s.threads|
    ensures var t := StepThread(s, i, fails);
            t.threads == s.threads[i := t.threads[i]] && (s.threads[i].Done? ==> t == s)
  {
  }

  lemma LawfulThread(s: State, i: nat)
    requires Invariant(s) && i < |s.threads|
    ensures Lawful(s, s.threads[i])
  {
  }
}
