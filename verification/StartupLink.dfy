/** The login-startup shortcut (`set_registration`): read, write a temporary link, verify it, recheck the
    existing one, replace. Any step may fail, the saved link may differ from what was asked, and somebody
    else may change the link before the recheck. */
module StartupLink {
  import opened Common

  datatype LaunchSpec = LaunchSpec(executable: string, arguments: string, directory: string, hidden: bool)

  /** What lies at a path: nothing, a link carrying our description, somebody else's link, or no readable link. */
  datatype Node = Absent | Owned(spec: LaunchSpec) | Foreign | Unreadable

  /** `read_registration`: only nothing and our own links read without an error. */
  function Read(node: Node, fails: bool): Result<Option<LaunchSpec>> {
    if fails then Invalid else
      match node
      case Absent => Ok(None)
      case Owned(spec) => Ok(Some(spec))
      case Foreign => Invalid
      case Unreadable => Invalid
  }

  /** What goes wrong in one call. `saved` is the link that ends up in the temporary file when saving succeeds;
      `leftover` is what a failed save leaves there; `edit` is a change of the link by others before the recheck. */
  datatype Faults = Faults(readFails: bool, removeFails: bool, folderFails: bool, reserveFails: bool,
                           saved: Option<Node>, leftover: Node, verifyFails: bool, edit: Option<Node>,
                           recheckFails: bool, replaceFails: bool, cleanupFails: bool)

  datatype Status = Status(enabled: bool, needsRepair: bool, disabledByWindows: bool)

  /** `registration_status`. */
  function StatusOf(link: Node, fails: bool, expected: Result<LaunchSpec>, blocked: bool): Result<Status> {
    var registered :- Read(link, fails);
    Ok(Status(registered.Some?, registered.Some? && expected != Ok(registered.value), registered.Some? && blocked))
  }

  /** The temporary link was saved as asked, read back equal, and the existing link was still the same. */
  predicate Verified(link: Node, spec: LaunchSpec, f: Faults, nameTaken: bool) {
    && !f.folderFails && !f.reserveFails && !nameTaken
    && f.saved == Some(Owned(spec)) && !f.verifyFails
    && !f.recheckFails && (f.edit.Some? ==> f.edit.value == link)
    && !f.replaceFails
  }

  /** Exactly when a call succeeds. */
  predicate Succeeds(link: Node, enabled: bool, expected: Result<LaunchSpec>, f: Faults, nameTaken: bool) {
    && Read(link, f.readFails).Ok?
    && (!enabled ==> link == Absent || !f.removeFails)
    && (enabled ==> expected.Ok? && (link == Owned(expected.value) || Verified(link, expected.value, f, nameTaken)))
  }

  class StartupFolder {
    var link: Node
    var temporaries: map<string, Node>

    constructor (link: Node)
      ensures this.link == link && temporaries == map[]
    {
      this.link := link;
      temporaries := map[];
    }

    /** `edited` says whether the change by others took place, that is, whether the call got as far as the recheck.
        Whatever fails, the link is what others made it, or removed on request, or the fully verified new link. */
    method SetRegistration(enabled: bool, expected: Result<LaunchSpec>, name: string, f: Faults)
        returns (ok: bool, edited: bool)
      modifies this
      ensures ok <==> Succeeds(old(link), enabled, expected, f, name in old(temporaries))
      ensures ok <==>
                && (old(link) == Absent || old(link).Owned?) && !f.readFails
                && if !enabled then old(link) == Absent || !f.removeFails
                   else expected.Ok?
                        && (old(link) == Owned(expected.value)
                            || (&& !f.folderFails && !f.reserveFails && name !in old(temporaries)
                                && f.saved == Some(Owned(expected.value)) && !f.verifyFails && !f.recheckFails
                                && (f.edit.Some? ==> f.edit.value == old(link)) && !f.replaceFails))
      ensures ok && enabled ==> link == Owned(expected.value)
      ensures ok && !enabled ==> link == Absent
      ensures edited ==> enabled && f.edit.Some? && Read(old(link), false).Ok?
      ensures !ok ==> link == if edited then f.edit.value else old(link)
      ensures !f.cleanupFails || ok ==> temporaries == old(temporaries)
      ensures temporaries - {name} == old(temporaries) - {name}
      ensures name in old(temporaries) ==> temporaries == old(temporaries)
    {
      edited := false;
      var existing := Read(link, f.readFails);
      if existing.Invalid? {
        return false, edited;
      }
      if !enabled {
        if existing.value.Some? {
          if f.removeFails {
            return false, edited;
          }
          link := Absent;
        }
        return true, edited;
      }
      if expected.Invalid? {
        return false, edited;
      }
      if existing.value == Some(expected.value) {
        return true, edited;
      }
      if f.folderFails || f.reserveFails || name in temporaries {
        return false, edited;
      }
      temporaries := temporaries[name := Unreadable];
      ok, edited := WriteVerifyReplace(existing.value, expected.value, name, f);
      if name in temporaries && !f.cleanupFails {
        temporaries := temporaries - {name};
      }
      if name !in temporaries {
        assert temporaries == temporaries - {name} == old(temporaries) - {name} == old(temporaries);
      }
    }

    method WriteVerifyReplace(existing: Option<LaunchSpec>, spec: LaunchSpec, name: string, f: Faults)
        returns (ok: bool, edited: bool)
      requires name in temporaries && Read(link, false) == Ok(existing)
      modifies this
      ensures ok <==>
                f.saved == Some(Owned(spec)) && !f.verifyFails && !f.recheckFails
                && (f.edit.Some? ==> f.edit.value == old(link)) && !f.replaceFails
      ensures edited ==> f.edit.Some?
      ensures if ok then link == Owned(spec) else link == if edited then f.edit.value else old(link)
      ensures temporaries - {name} == old(temporaries) - {name} && (ok ==> name !in temporaries)
    {
      edited := false;
      if f.saved.None? {
        temporaries := temporaries[name := f.leftover];
        return false, edited;
      }
      temporaries := temporaries[name := f.saved.value];
      var written := Read(temporaries[name], f.verifyFails);
      if written.Invalid? || written.value != Some(spec) {
        return false, edited;
      }
      if f.edit.Some? {
        link, edited := f.edit.value, true;
      }
      var current := Read(link, f.recheckFails);
      if current.Invalid? || current.value != existing {
        return false, edited;
      }
      if f.replaceFails {
        return false, edited;
      }
      link := temporaries[name];
      temporaries := temporaries - {name};
      return true, edited;
    }

    /** One command: the launch target and Windows' own switch are looked up first, then the change, then the status.
        `approval` is the switch, or a failure to read it; turning the registration off never needs it. */
    method Run(change: Option<bool>, expected: Result<LaunchSpec>, approval: Result<bool>, name: string, f: Faults,
        statusFails: bool)
      returns (r: Result<Status>)
      modifies this
      ensures change == None || (change == Some(true) && approval.Invalid?) ==>
                link == old(link) && temporaries == old(temporaries)
      ensures change == Some(true) && r.Ok? ==>
                approval.Ok? && expected.Ok? && link == Owned(expected.value)
                && r.value == Status(true, false, approval.value)
      ensures change == Some(false) && r.Ok? ==> link == Absent && r.value == Status(false, false, false)
      ensures change == None && r.Ok? ==>
                if link == Absent then r.value == Status(false, false, false)
                else link.Owned? && approval.Ok?
                     && r.value == Status(true, expected != Ok(link.spec), approval.value)
      ensures change == None ==>
                (r.Ok? <==> !f.readFails && !statusFails && (link == Absent || (link.Owned? && approval.Ok?)))
      ensures change.Some? ==>
                (r.Ok? <==> !statusFails && (change.value ==> approval.Ok?)
                            && Succeeds(old(link), change.value, expected, f, name in old(temporaries)))
      ensures old(link) == Foreign || old(link) == Unreadable ==> r.Invalid? && link == old(link)
    {
      var blocked := false;
      if change == Some(true) {
        blocked :- approval;
      } else if change == None {
        var registered :- Read(link, f.readFails);
        if registered.Some? {
          blocked :- approval;
        }
      }
      if change.Some? {
        var ok, edited := SetRegistration(change.value, expected, name, f);
        if !ok {
          return Invalid;
        }
      }
      return StatusOf(link, statusFails, expected, blocked);
    }
  }

  // ---------------------------------------------------- calls, deaths and others

  /** Where a call stands; one step per access to the folder. */
  datatype Phase =
    | Resting
    | Reading(enabled: bool, expected: Result<LaunchSpec>, name: string)
    | Removing
    | Reserving(existing: Option<LaunchSpec>, spec: LaunchSpec, name: string)
    | Saving(existing: Option<LaunchSpec>, spec: LaunchSpec, name: string)
    | Verifying(existing: Option<LaunchSpec>, spec: LaunchSpec, name: string)
    | Rechecking(existing: Option<LaunchSpec>, spec: LaunchSpec, name: string)
    | Replacing(existing: Option<LaunchSpec>, spec: LaunchSpec, name: string)
    | Cleaning(name: string, ok: bool)

  /** `others` is what somebody else last left at the link path, `asked` are the registrations requested so far,
      `stale` the names a death or a failed removal left behind. */
  datatype State = State(link: Node, temporaries: map<string, Node>, phase: Phase, outcome: Option<bool>,
                         others: Node, asked: set<LaunchSpec>, stale: set<string>)

  /** A step may fail; a save leaves `saved` in the temporary file, whether it fails or not. */
  datatype Action = Call(enabled: bool, expected: Result<LaunchSpec>, name: string)
                  | Step(fails: bool, saved: Node) | Edit(node: Node) | Die

  function Ended(s: State, ok: bool): State {
    s.(phase := Resting, outcome := Some(ok))
  }

  function StepCall(s: State, fails: bool, saved: Node): State {
    match s.phase
    case Resting => s
    case Reading(enabled, expected, name) =>
      var read := Read(s.link, fails);
      if read.Invalid? then Ended(s, false)
      else if !enabled then (if read.value.None? then Ended(s, true) else s.(phase := Removing))
      else if expected.Invalid? then Ended(s, false)
      else if read.value == Some(expected.value) then Ended(s, true)
      else s.(phase := Reserving(read.value, expected.value, name))
    case Removing => if fails then Ended(s, false) else Ended(s.(link := Absent), true)
    case Reserving(existing, spec, name) =>
      if fails || name in s.temporaries then Ended(s, false)
      else s.(temporaries := s.temporaries[name := Unreadable], phase := Saving(existing, spec, name))
    case Saving(existing, spec, name) =>
      s.(temporaries := s.temporaries[name := saved],
         phase := if fails then Cleaning(name, false) else Verifying(existing, spec, name))
    case Verifying(existing, spec, name) =>
      if name in s.temporaries && Read(s.temporaries[name], fails) == Ok(Some(spec))
      then s.(phase := Rechecking(existing, spec, name)) else s.(phase := Cleaning(name, false))
    case Rechecking(existing, spec, name) =>
      var same := Read(s.link, fails) == Ok(existing);
      s.(phase := if same then Replacing(existing, spec, name) else Cleaning(name, false))
    case Replacing(existing, spec, name) =>
      if fails || name !in s.temporaries then s.(phase := Cleaning(name, false))
      else s.(link := s.temporaries[name], temporaries := s.temporaries - {name}, phase := Cleaning(name, true))
    case Cleaning(name, ok) =>
      if name !in s.temporaries then Ended(s, ok)
      else if fails then Ended(s.(stale := s.stale + {name}), ok)
      else Ended(s.(temporaries := s.temporaries - {name}), ok)
  }

  /** What a phase meets, given what goes wrong in the call. */
  function Meets(p: Phase, f: Faults): (bool, Node) {
    match p
    case Resting => (false, Absent)
    case Reading(_, _, _) => (f.readFails, Absent)
    case Removing => (f.removeFails, Absent)
    case Reserving(_, _, _) => (f.folderFails || f.reserveFails, Absent)
    case Saving(_, _, _) => (f.saved.None?, if f.saved.Some? then f.saved.value else f.leftover)
    case Verifying(_, _, _) => (f.verifyFails, Absent)
    case Rechecking(_, _, _) => (f.recheckFails, Absent)
    case Replacing(_, _, _) => (f.replaceFails, Absent)
    case Cleaning(_, _) => (f.cleanupFails, Absent)
  }

  /** One call taking up to `n` steps with nothing in between. */
  function Alone(s: State, f: Faults, n: nat): State
    decreases n
  {
    if n == 0 || s.phase == Resting then s else
      var (fails, saved) := Meets(s.phase, f);
      Alone(StepCall(s, fails, saved), f, n - 1)
  }

  /** From the reserved name on: save, verify, recheck, replace, clean up. */
  lemma SavingAlone(s: State, existing: Option<LaunchSpec>, spec: LaunchSpec, name: string, f: Faults)
    requires s.phase == Saving(existing, spec, name) && name in s.temporaries && Read(s.link, false) == Ok(existing)
    ensures var t := Alone(s, f, 5);
            var ok := f.saved == Some(Owned(spec)) && !f.verifyFails && !f.recheckFails && !f.replaceFails;
            && t.phase == Resting && t.outcome == Some(ok) && t.link == (if ok then Owned(spec) else s.link)
            && t.temporaries - {name} == s.temporaries - {name} && (ok || !f.cleanupFails ==> name !in t.temporaries)
  {
    var s1 := StepCall(s, Meets(s.phase, f).0, Meets(s.phase, f).1);
    assert Alone(s, f, 5) == Alone(s1, f, 4);
    if s1.phase.Cleaning? {
      CleanedAlone(s1, name, false, f, 4);
    } else {
      var s2 := StepCall(s1, f.verifyFails, Absent);
      assert Alone(s1, f, 4) == Alone(s2, f, 3);
      CheckedAlone(s2, existing, spec, name, f);
    }
  }

  lemma CleanedAlone(s: State, name: string, ok: bool, f: Faults, n: nat)
    requires s.phase == Cleaning(name, ok) && n > 0
    ensures var t := Alone(s, f, n);
            && t.phase == Resting && t.outcome == Some(ok) && t.link == s.link
            && t.temporaries - {name} == s.temporaries - {name}
            && (name !in s.temporaries || !f.cleanupFails ==> name !in t.temporaries)
  {
    var t := StepCall(s, f.cleanupFails, Absent);
    assert Alone(s, f, n) == Alone(t, f, n - 1) == t;
  }

  /** The last three steps: a verified link is rechecked and put in place; anything else is cleaned up. */
  lemma CheckedAlone(s: State, existing: Option<LaunchSpec>, spec: LaunchSpec, name: string, f: Faults)
    requires s.phase == Rechecking(existing, spec, name) || s.phase == Cleaning(name, false)
    requires s.phase.Rechecking? ==> name in s.temporaries && s.temporaries[name] == Owned(spec)
    requires Read(s.link, false) == Ok(existing)
    ensures var t, ok := Alone(s, f, 3), s.phase.Rechecking? && !f.recheckFails && !f.replaceFails;
            && t.phase == Resting && t.outcome == Some(ok) && t.link == (if ok then Owned(spec) else s.link)
            && t.temporaries - {name} == s.temporaries - {name} && (ok || !f.cleanupFails ==> name !in t.temporaries)
  {
    if s.phase.Cleaning? {
      CleanedAlone(s, name, false, f, 3);
    } else {
      var s1 := StepCall(s, f.recheckFails, Absent);
      assert Alone(s, f, 3) == Alone(s1, f, 2);
      if f.recheckFails {
        CleanedAlone(s1, name, false, f, 2);
      } else {
        var s2 := StepCall(s1, f.replaceFails, Absent);
        assert Alone(s1, f, 2) == Alone(s2, f, 1);
        CleanedAlone(s2, name, !f.replaceFails, f, 1);
      }
    }
  }

  lemma ReservingAlone(s: State, existing: Option<LaunchSpec>, spec: LaunchSpec, name: string, f: Faults)
    requires s.phase == Reserving(existing, spec, name) && Read(s.link, false) == Ok(existing) && f.edit.None?
    ensures var t, ok := Alone(s, f, 6), Verified(s.link, spec, f, name in s.temporaries);
            && t.phase == Resting && t.outcome == Some(ok) && t.link == (if ok then Owned(spec) else s.link)
            && t.temporaries - {name} == s.temporaries - {name}
            && (!f.cleanupFails || ok || name in s.temporaries ==> t.temporaries == s.temporaries)
  {
    var s1 := StepCall(s, f.folderFails || f.reserveFails, Absent);
    assert Alone(s, f, 6) == Alone(s1, f, 5);
    if s1.phase.Saving? {
      SavingAlone(s1, existing, spec, name, f);
      var t := Alone(s1, f, 5);
      assert name !in t.temporaries ==> t.temporaries == t.temporaries - {name} == s.temporaries;
    }
  }

  /** A call of the machine, run alone, meets the contract of `SetRegistration`. */
  lemma CallAlone(s: State, enabled: bool, expected: Result<LaunchSpec>, name: string, f: Faults)
    requires s.phase == Reading(enabled, expected, name) && f.edit.None?
    ensures var t, ok := Alone(s, f, 7), Succeeds(s.link, enabled, expected, f, name in s.temporaries);
            && t.phase == Resting && t.outcome == Some(ok)
            && t.link == (if !ok then s.link else if enabled then Owned(expected.value) else Absent)
            && t.temporaries - {name} == s.temporaries - {name}
            && (!f.cleanupFails || ok || name in s.temporaries ==> t.temporaries == s.temporaries)
  {
    hide Verified;
    var s1 := StepCall(s, f.readFails, Absent);
    assert Alone(s, f, 7) == Alone(s1, f, 6);
    if s1.phase.Reserving? {
      ReservingAlone(s1, s1.phase.existing, expected.value, name, f);
    } else if s1.phase.Removing? {
      var s2 := StepCall(s1, f.removeFails, Absent);
      assert Alone(s1, f, 6) == Alone(s2, f, 5);
    }
  }

  /** Others may change the link at any time but between a check and the change that relies on it. */
  function Next(s: State, a: Action): State {
    match a
    case Call(enabled, expected, name) =>
      if !s.phase.Resting? then s // one call at a time holds the lock
      else s.(phase := Reading(enabled, expected, name), outcome := None,
              asked := s.asked + (if enabled && expected.Ok? then {expected.value} else {}))
    case Step(fails, saved) => StepCall(s, fails, saved)
    case Edit(node) => if s.phase.Removing? || s.phase.Replacing? then s else s.(link := node, others := node)
    case Die => s.(phase := Resting, outcome := None, stale := s.stale + s.temporaries.Keys)
  }

  function Begin(link: Node): State {
    State(link, map[], Resting, None, link, {}, {})
  }

  function History(link: Node, actions: seq<Action>): State {
    if actions == [] then Begin(link) else Next(History(link, actions[..|actions| - 1]), actions[|actions| - 1])
  }

  predicate Readable(node: Node) {
    node.Absent? || node.Owned?
  }

  /** The link is as others left it; or, over something readable, removed or one of the requested registrations. */
  predicate Proper(s: State) {
    s.link == s.others || (Readable(s.others) && (s.link == Absent || (s.link.Owned? && s.link.spec in s.asked)))
  }

  /** The name a call has reserved. */
  function Held(p: Phase): set<string> {
    match p
    case Saving(_, _, name) => {name}
    case Verifying(_, _, name) => {name}
    case Rechecking(_, _, name) => {name}
    case Replacing(_, _, name) => {name}
    case Cleaning(name, _) => {name}
    case _ => {}
  }

  /** The registration a call works for. */
  function Wanted(p: Phase): set<LaunchSpec> {
    match p
    case Reading(enabled, expected, _) => if enabled && expected.Ok? then {expected.value} else {}
    case Reserving(_, spec, _) => {spec}
    case Saving(_, spec, _) => {spec}
    case Verifying(_, spec, _) => {spec}
    case Rechecking(_, spec, _) => {spec}
    case Replacing(_, spec, _) => {spec}
    case _ => {}
  }

  /** The link that reads as this. */
  function NodeOf(read: Option<LaunchSpec>): Node {
    match read
    case None => Absent
    case Some(spec) => Owned(spec)
  }

  predicate Verifies(s: State) {
    match s.phase
    case Rechecking(_, spec, name) => name in s.temporaries && s.temporaries[name] == Owned(spec)
    case Replacing(existing, spec, name) =>
      name in s.temporaries && s.temporaries[name] == Owned(spec) && s.link == NodeOf(existing)
    case Removing => Readable(s.link)
    case _ => true
  }

  predicate Invariant(s: State) {
    Proper(s) && s.temporaries.Keys <= s.stale + Held(s.phase) && Wanted(s.phase) <= s.asked && Verifies(s)
  }

  lemma NextKeeps(s: State, a: Action)
    requires Invariant(s)
    ensures Invariant(Next(s, a))
  {
    match a
    case Step(fails, saved) =>
      hide Invariant, StepCall;
      if Held(s.phase) == {} {
        FreeStepKeeps(s, fails, saved);
      } else {
        HeldStepKeeps(s, fails, saved);
      }
    case _ => hide StepCall;
  }

  /** Steps of a call that has reserved nothing. */
  lemma FreeStepKeeps(s: State, fails: bool, saved: Node)
    requires Invariant(s) && Held(s.phase) == {}
    ensures Invariant(StepCall(s, fails, saved))
  {
    match s.phase
    case Reading(_, _, _) =>
    case Removing =>
    case Reserving(_, _, _) =>
    case _ =>
  }

  lemma HeldStepKeeps(s: State, fails: bool, saved: Node)
    requires Invariant(s) && Held(s.phase) != {}
    ensures Invariant(StepCall(s, fails, saved))
  {
    match s.phase
    case Saving(_, _, _) =>
    case Verifying(_, _, _) =>
    case Rechecking(_, _, _) =>
    case Replacing(_, _, _) =>
    case Cleaning(_, _) =>
    case _ =>
  }

  lemma {:induction false} HistoryKeeps(link: Node, actions: seq<Action>)
    ensures Invariant(History(link, actions))
  {
    if actions != [] {
      hide Invariant, Next;
      HistoryKeeps(link, actions[..|actions| - 1]);
      NextKeeps(History(link, actions[..|actions| - 1]), actions[|actions| - 1]);
    } else {
      BeginHolds(link);
    }
  }

  lemma BeginHolds(link: Node)
    ensures Invariant(History(link, []))
  {
  }

  /** After every history of calls, failures, deaths and changes by others, the link is what others left there,
      or removed, or a requested registration; and what is foreign or unreadable is as others left it. */
  lemma LinkIsProper(link: Node, actions: seq<Action>)
    ensures var s := History(link, actions); Proper(s) && (!Readable(s.others) ==> s.link == s.others)
  {
    HistoryKeeps(link, actions);
  }

  /** Between calls, every temporary file is one that a death or a failed removal left. */
  lemma OnlyStaleFilesRemain(link: Node, actions: seq<Action>)
    requires History(link, actions).phase == Resting
    ensures var s := History(link, actions); s.temporaries.Keys <= s.stale
  {
    HistoryKeeps(link, actions);
  }

  /** A step that changes the link removes a readable one, or puts the verified temporary link in the place of the
      very link the call read at its start. */
  lemma OnlyVerifiedLinks(link: Node, actions: seq<Action>, fails: bool, saved: Node)
    ensures var s := History(link, actions); var t := Next(s, Step(fails, saved));
            t.link == s.link
            || (s.phase.Removing? && Readable(s.link) && t.link == Absent)
            || (s.phase.Replacing? && s.link == NodeOf(s.phase.existing) && t.link == Owned(s.phase.spec)
                && s.phase.name in s.temporaries && s.temporaries[s.phase.name] == t.link)
  {
    HistoryKeeps(link, actions);
  }
}
