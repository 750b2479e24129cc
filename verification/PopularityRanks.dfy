/** Popularity ranks (`download_popularity.rs`): ranks of library galleries, cached per period, filled in
    one by one from the stored index while the library changes. */
module PopularityRanks {
  import opened Common
  import opened Bytes

  datatype Period = Today | Week | Month | Year

  /** The index: gallery ids as consecutive 32-bit big-endian numbers; a short rest is ignored. */
  function Ids(bytes: seq<Byte>): (ids: seq<int>)
    ensures |ids| == |bytes| / 4
  {
    if |bytes| < 4 then [] else [Be32(bytes[..4])] + Ids(bytes[4..])
  }

  type Rank = Option<nat>

  /** A rank is the position of the first occurrence, counted from one; none if there is no occurrence. */
  predicate IsRank(ids: seq<int>, id: int, rank: Rank) {
    match rank
    case None => id !in ids
    case Some(r) => 1 <= r <= |ids| && ids[r - 1] == id && id !in ids[..r - 1]
  }

  function RankIn(ids: seq<int>, id: int): (rank: Rank)
    ensures IsRank(ids, id, rank)
  {
    if ids == [] then None
    else if ids[0] == id then Some(1)
    else match RankIn(ids[1..], id)
      case None => None
      case Some(r) =>
        assert ids[..r] == [ids[0]] + ids[1..][..r - 1];
        Some(r + 1)
  }

  lemma RankUnique(ids: seq<int>, id: int, rank: Rank)
    requires IsRank(ids, id, rank)
    ensures rank == RankIn(ids, id)
  {
    var other := RankIn(ids, id);
    if rank.Some? && other.Some? {
      var r, o := rank.value, other.value;
      assert forall k | 0 <= k < r - 1 :: ids[..r - 1][k] == ids[k];
      assert forall k | 0 <= k < o - 1 :: ids[..o - 1][k] == ids[k];
    }
  }

  /** What recomputing from scratch gives. */
  function Ranked(bytes: seq<Byte>, ids: set<int>): map<int, Rank> {
    map id | id in ids :: RankIn(Ids(bytes), id)
  }

  /** Id i of the index is the big-endian number in bytes 4i to 4i + 3. */
  lemma IdAt(bytes: seq<Byte>, i: nat)
    requires 4 * i + 4 <= |bytes|
    ensures Ids(bytes)[i]
         == 16777216 * bytes[4 * i] as int + 65536 * bytes[4 * i + 1] as int + 256 * bytes[4 * i + 2] as int
            + bytes[4 * i + 3] as int
  {
    hide Ids;
    ChunkIsId(bytes, i);
    var b := bytes[4 * i..4 * i + 4];
    assert b[0] == bytes[4 * i] && b[1] == bytes[4 * i + 1] && b[2] == bytes[4 * i + 2] && b[3] == bytes[4 * i + 3];
  }

  lemma {:induction false} ChunkIsId(bytes: seq<Byte>, i: nat)
    requires 4 * i + 4 <= |bytes|
    ensures Ids(bytes)[i] == Be32(bytes[4 * i..4 * i + 4])
  {
    hide Be32;
    if i > 0 {
      ChunkIsId(bytes[4..], i - 1);
      assert bytes[4..][4 * (i - 1)..4 * (i - 1) + 4] == bytes[4 * i..4 * i + 4];
    }
  }

  /** `assign_ranks`: one scan of the index, leaving as soon as nothing is missing. */
  method AssignRanks(bytes: seq<Byte>, ids: set<int>) returns (ranks: map<int, Rank>)
    ensures ranks == Ranked(bytes, ids)
    ensures ranks.Keys == ids && forall id | id in ids :: IsRank(Ids(bytes), id, ranks[id])
  {
    hide Ids, RankIn;
    ghost var list := Ids(bytes);
    var missing := ids;
    ranks := map[];
    for index := 0 to |bytes| / 4
      invariant missing <= ids && ranks.Keys == ids - missing
      invariant forall id | id in missing :: id !in list[..index]
      invariant forall id | id in ranks :: ranks[id] == RankIn(list, id)
    {
      ChunkIsId(bytes, index);
      var id := Be32(bytes[4 * index..4 * index + 4]);
      assert list[..index + 1] == list[..index] + [id];
      if id in missing {
        RankUnique(list, id, Some(index + 1));
        missing := missing - {id};
        ranks := ranks[id := Some(index + 1)];
      }
      if missing == {} {
        break;
      }
    }
    assert list[..|bytes| / 4] == list;
    while missing != {}
      invariant missing <= ids && ranks.Keys == ids - missing
      invariant forall id | id in missing :: id !in list
      invariant forall id | id in ranks :: ranks[id] == RankIn(list, id)
      decreases missing
    {
      ghost var some := SomeMember(missing);
      var id :| id in missing;
      RankUnique(list, id, None);
      missing := missing - {id};
      ranks := ranks[id := None];
    }
  }

  // ------------------------------------------------------------------ tables

  datatype Snapshot = Snapshot(bytes: seq<Byte>, fetchedAt: string)
  datatype Key = Key(period: Period, gallery: int)

  /** A batch of ranks as rows of one period. */
  function Rows(period: Period, batch: map<int, Rank>): (rows: map<Key, Rank>)
    ensures forall k :: k in rows <==> k.period == period && k.gallery in batch
    ensures forall k | k in rows :: rows[k] == batch[k.gallery]
  {
    var keys := set g | g in batch :: Key(period, g);
    map k | k in keys :: batch[k.gallery]
  }

  /** Stored indexes, stored ranks, and the download entries with their galleries. */
  datatype Tables = Tables(snapshots: map<Period, Snapshot>, ranks: map<Key, Rank>, entries: map<nat, int>) {
    function Library(): set<int> {
      set e | e in entries :: entries[e]
    }

    /** Galleries of the library without a rank row for the period. */
    function Missing(period: Period): set<int> {
      set g | g in Library() && Key(period, g) !in ranks
    }

    /** `INSERT OR REPLACE` of a batch of ranks. */
    function Insert(period: Period, batch: map<int, Rank>): Tables {
      Tables(snapshots, ranks + Rows(period, batch), entries)
    }

    /** The transaction of a refresh: the new index, no old rank of the period, the new batch. */
    function Replace(period: Period, snapshot: Snapshot, batch: map<int, Rank>): Tables {
      var others := map k | k in ranks && k.period != period :: ranks[k];
      Tables(snapshots[period := snapshot], others, entries).Insert(period, batch)
    }

    /** Ranks of galleries that are still in the library. */
    function Visible(period: Period): map<int, Rank> {
      map g | g in Library() && Key(period, g) in ranks :: ranks[Key(period, g)]
    }
  }

  lemma RowsStep(period: Period, batch: map<int, Rank>, left: set<int>, g: int, before: map<Key, Rank>)
    requires left <= batch.Keys && g in left
    ensures before + Rows(period, batch - (left - {g}))
              == (before + Rows(period, batch - left))[Key(period, g) := batch[g]]
  {
    hide Rows;
    var more, fewer := Rows(period, batch - (left - {g})), Rows(period, batch - left);
    assert (batch - (left - {g})).Keys == (batch - left).Keys + {g};
    assert more == fewer[Key(period, g) := batch[g]];
  }

  predicate Storable(bytes: seq<Byte>) {
    bytes != [] && |bytes| % 4 == 0
  }

  /** A gallery of some download entry. */
  predicate Listed(t: Tables, gallery: int) {
    exists e :: e in t.entries && t.entries[e] == gallery
  }

  lemma LibraryIsListed(t: Tables)
    ensures forall g :: g in t.Library() <==> Listed(t, g)
  {
  }

  /** The index of the period is new, and its ranks are those of the listed galleries in it; nothing else changed. */
  ghost predicate Refreshed(before: Tables, after: Tables, period: Period, bytes: seq<Byte>, date: string) {
    && after.snapshots == before.snapshots[period := Snapshot(bytes, date)] && after.entries == before.entries
    && (forall k: Key :: k in after.ranks <==>
                         if k.period == period then Listed(before, k.gallery) else k in before.ranks)
    && (forall k: Key | k in after.ranks ::
          if k.period == period then IsRank(Ids(bytes), k.gallery, after.ranks[k])
          else k in before.ranks && after.ranks[k] == before.ranks[k])
  }

  /** Every listed gallery without a rank of the period got one from the stored index; nothing else changed. */
  ghost predicate Filled(before: Tables, after: Tables, period: Period) {
    && after.snapshots == before.snapshots && after.entries == before.entries
    && (forall k: Key :: k in after.ranks <==>
                         k in before.ranks || (k.period == period && Listed(before, k.gallery)))
    && (forall k: Key | k in before.ranks :: k in after.ranks && after.ranks[k] == before.ranks[k])
    && (forall k: Key | k in after.ranks && k !in before.ranks ::
          period in before.snapshots
          && IsRank(Ids(before.snapshots[period].bytes), k.gallery, after.ranks[k]))
  }

  lemma ReplaceRefreshes(t: Tables, period: Period, bytes: seq<Byte>, date: string)
    ensures Refreshed(t, t.Replace(period, Snapshot(bytes, date), Ranked(bytes, t.Library())), period, bytes, date)
  {
    hide Ids, RankIn, IsRank, Rows, Tables.Library;
    LibraryIsListed(t);
  }

  lemma NothingMissing(t: Tables, period: Period)
    ensures t.Missing(period) == {} <==> forall g | Listed(t, g) :: Key(period, g) in t.ranks
    ensures t.Missing(period) == {} ==> Filled(t, t, period)
  {
    LibraryIsListed(t);
    hide Tables.Library, Listed;
    if t.Missing(period) == {} {
      forall g | Listed(t, g)
        ensures Key(period, g) in t.ranks
      {
        assert g !in t.Missing(period);
      }
    }
  }

  lemma InsertFills(t: Tables, period: Period)
    requires period in t.snapshots
    ensures Filled(t, t.Insert(period, Ranked(t.snapshots[period].bytes, t.Missing(period))), period)
  {
    hide Ids, RankIn, IsRank, Rows, Tables.Library;
    LibraryIsListed(t);
  }

  /** The database as one object; each method is one call of the original with nothing in between, and
      `commits` says whether its transaction goes through. */
  class RankStore {
    var snapshots: map<Period, Snapshot>
    var ranks: map<Key, Rank>
    var entries: map<nat, int>

    function State(): Tables
      reads this
    {
      Tables(snapshots, ranks, entries)
    }

    method InsertRanks(period: Period, batch: map<int, Rank>)
      modifies this`ranks
      ensures State() == old(State()).Insert(period, batch)
    {
      hide Rows;
      var left := batch.Keys;
      assert batch - left == map[] && ranks == ranks + Rows(period, map[]);
      while left != {}
        invariant left <= batch.Keys
        invariant ranks == old(ranks) + Rows(period, batch - left)
        decreases left
      {
        ghost var some := SomeMember(left);
        var g :| g in left;
        RowsStep(period, batch, left, g, old(ranks));
        ranks := ranks[Key(period, g) := batch[g]];
        left := left - {g};
      }
      assert batch - {} == batch;
    }

    method StoreSnapshot(period: Period, bytes: seq<Byte>, date: string, commits: bool) returns (ok: bool)
      modifies this
      ensures ok <==> bytes != [] && |bytes| % 4 == 0 && commits
      ensures ok ==> Refreshed(old(State()), State(), period, bytes, date)
      ensures State() ==
              if ok then old(State()).Replace(period, Snapshot(bytes, date), Ranked(bytes, old(State()).Library()))
              else old(State())
    {
      hide Rows, Ranked, Ids, Refreshed;
      ReplaceRefreshes(State(), period, bytes, date);
      if bytes == [] || |bytes| % 4 != 0 {
        return false;
      }
      var batch := AssignRanks(bytes, State().Library());
      if !commits {
        return false;
      }
      snapshots := snapshots[period := Snapshot(bytes, date)];
      ranks := map k | k in ranks && k.period != period :: ranks[k];
      InsertRanks(period, batch);
      return true;
    }

    method BackfillMissing(period: Period, commits: bool) returns (ok: bool)
      modifies this`ranks
      ensures ok <==>
                || (period in snapshots && commits)
                || (forall g | Listed(old(State()), g) :: Key(period, g) in old(ranks))
      ensures ok ==> Filled(old(State()), State(), period)
      ensures State() ==
              if period in snapshots && commits
              then old(State()).Insert(period, Ranked(snapshots[period].bytes, old(State()).Missing(period)))
              else old(State())
    {
      LibraryIsListed(State());
      NothingMissing(State(), period);
      ghost var stored := period in snapshots;
      if stored {
        InsertFills(State(), period);
      }
      hide Filled, Listed, Ranked;
      var ids := State().Missing(period);
      if ids == {} {
        assert period in snapshots ==> ranks + Rows(period, Ranked(snapshots[period].bytes, ids)) == ranks;
        return true;
      }
      if period !in snapshots {
        return false;
      }
      var batch := AssignRanks(snapshots[period].bytes, ids);
      if !commits {
        return false;
      }
      InsertRanks(period, batch);
      return true;
    }
  }

  // ----------------------------------------------------------- interleavings

  /** The one refresh under way (a second is refused by the lock). `present` are the library galleries seen by
      the backfill scan and not deleted since. */
  datatype Job =
    | Resting
    | Storing(period: Period, snapshot: Snapshot, batch: map<int, Rank>)
    | Ready(period: Period)
    | Backfilling(period: Period, batch: map<int, Rank>, present: set<int>)
    | Backfilled(period: Period, present: set<int>)

  datatype State = State(tables: Tables, job: Job)

  /** Library changes may come between any two steps of a refresh; a transaction commits or leaves no trace. */
  datatype Action =
    | AddEntry(entry: nat, gallery: int) | DeleteEntry(entry: nat)
    | Fetched(period: Period, bytes: seq<Byte>, date: string) // an answer arrived; the library is scanned
    | UseSaved(period: Period)                                // still fresh, or the answer failed
    | CommitStore(ok: bool) | ScanMissing | CommitBackfill(ok: bool) | Read

  function Next(s: State, a: Action): State {
    var t := s.tables;
    match a
    case AddEntry(entry, gallery) =>
      if entry in t.entries then s else s.(tables := t.(entries := t.entries[entry := gallery]))
    case DeleteEntry(entry) =>
      var left := t.(entries := t.entries - {entry});
      var job := match s.job
        case Backfilling(p, batch, present) => Backfilling(p, batch, present * left.Library())
        case Backfilled(p, present) => Backfilled(p, present * left.Library())
        case other => other;
      State(left, job)
    case Fetched(period, bytes, date) =>
      if !s.job.Resting? || !Storable(bytes) then s
      else s.(job := Storing(period, Snapshot(bytes, date), Ranked(bytes, t.Library())))
    case UseSaved(period) =>
      if !s.job.Resting? || period !in t.snapshots then s else s.(job := Ready(period))
    case CommitStore(ok) =>
      if !s.job.Storing? then s
      else if ok then State(t.Replace(s.job.period, s.job.snapshot, s.job.batch), Ready(s.job.period))
      else s.(job := Resting)
    case ScanMissing =>
      if !s.job.Ready? || s.job.period !in t.snapshots then s else
        var p := s.job.period;
        if t.Missing(p) == {} then s.(job := Backfilled(p, t.Library()))
        else s.(job := Backfilling(p, Ranked(t.snapshots[p].bytes, t.Missing(p)), t.Library()))
    case CommitBackfill(ok) =>
      if !s.job.Backfilling? then s
      else if ok then State(t.Insert(s.job.period, s.job.batch), Backfilled(s.job.period, s.job.present))
      else s.(job := Resting)
    case Read => if s.job.Backfilled? then s.(job := Resting) else s
  }

  function Run(actions: seq<Action>): State {
    if actions == [] then State(Tables(map[], map[], map[]), Resting)
    else Next(Run(actions[..|actions| - 1]), actions[|actions| - 1])
  }

  /** Every stored rank is the first-occurrence position in the index stored for its period. */
  ghost predicate Sound(t: Tables) {
    forall k | k in t.ranks :: k.period in t.snapshots
        && t.ranks[k] == RankIn(Ids(t.snapshots[k.period].bytes), k.gallery)
  }

  predicate Correct(bytes: seq<Byte>, batch: map<int, Rank>) {
    forall g | g in batch :: batch[g] == RankIn(Ids(bytes), g)
  }

  ghost predicate Invariant(s: State) {
    var t := s.tables;
    && Sound(t)
    && match s.job
       case Resting => true
       case Storing(_, snapshot, batch) => Storable(snapshot.bytes) && Correct(snapshot.bytes, batch)
       case Ready(p) => p in t.snapshots
       case Backfilling(p, batch, present) =>
         && p in t.snapshots && Correct(t.snapshots[p].bytes, batch) && present <= t.Library()
         && forall g | g in present :: Key(p, g) in t.ranks || g in batch
       case Backfilled(p, present) =>
         p in t.snapshots && present <= t.Library() && forall g | g in present :: Key(p, g) in t.ranks
  }

  lemma InsertSound(t: Tables, period: Period, batch: map<int, Rank>)
    requires Sound(t) && period in t.snapshots && Correct(t.snapshots[period].bytes, batch)
    ensures Sound(t.Insert(period, batch))
  {
    hide Ids, RankIn;
    var u := t.Insert(period, batch);
    forall k | k in u.ranks
      ensures k.period in u.snapshots && u.ranks[k] == RankIn(Ids(u.snapshots[k.period].bytes), k.gallery)
    {
      if k !in Rows(period, batch) {
        assert k in t.ranks;
      }
    }
  }

  lemma ReplaceSound(t: Tables, period: Period, snapshot: Snapshot, batch: map<int, Rank>)
    requires Sound(t) && Correct(snapshot.bytes, batch)
    ensures Sound(t.Replace(period, snapshot, batch))
  {
    hide Ids, RankIn;
    var others := map k | k in t.ranks && k.period != period :: t.ranks[k];
    var kept := Tables(t.snapshots[period := snapshot], others, t.entries);
    assert Sound(kept);
    InsertSound(kept, period, batch);
  }

  lemma NextKeeps(s: State, a: Action)
    requires Invariant(s)
    ensures Invariant(Next(s, a))
  {
    hide Ids, RankIn, Rows;
    match a
    case CommitStore(ok) =>
      if s.job.Storing? {
        ReplaceSound(s.tables, s.job.period, s.job.snapshot, s.job.batch);
      }
    case CommitBackfill(ok) =>
      if s.job.Backfilling? {
        BackfillKeeps(s);
      }
    case DeleteEntry(entry) =>
    case AddEntry(entry, gallery) => AddKeeps(s, entry, gallery);
    case Fetched(_, _, _) =>
    case ScanMissing => ScanKeeps(s);
    case UseSaved(_) =>
    case Read =>
  }

  lemma ScanKeeps(s: State)
    requires Invariant(s)
    ensures Invariant(Next(s, ScanMissing))
  {
    hide Ids, RankIn, Sound;
    if s.job.Ready? {
      var t, p := s.tables, s.job.period;
      assert forall g | g in t.Library() :: Key(p, g) in t.ranks || g in t.Missing(p);
      if t.Missing(p) == {} {
        forall g | g in t.Library()
          ensures Key(p, g) in t.ranks
        {
          assert g !in t.Missing(p);
        }
      }
    }
  }

  lemma AddKeeps(s: State, entry: nat, gallery: int)
    requires Invariant(s)
    ensures Invariant(Next(s, AddEntry(entry, gallery)))
  {
    hide Ids, RankIn, Rows, Sound;
    var t := s.tables;
    if entry !in t.entries {
      var more := t.(entries := t.entries[entry := gallery]);
      assert t.Library() <= more.Library() by {
        forall g | g in t.Library()
          ensures g in more.Library()
        {
          var e :| e in t.entries && t.entries[e] == g;
          assert e in more.entries && more.entries[e] == g;
        }
      }
      SameRanks(t, more);
    }
  }

  lemma SameRanks(t: Tables, u: Tables)
    requires Sound(t) && u.ranks == t.ranks && u.snapshots == t.snapshots
    ensures Sound(u)
  {
  }

  lemma BackfillKeeps(s: State)
    requires Invariant(s) && s.job.Backfilling?
    ensures Invariant(Next(s, CommitBackfill(true)))
  {
    hide Ids, RankIn;
    InsertSound(s.tables, s.job.period, s.job.batch);
  }

  lemma {:induction false} RunKeeps(actions: seq<Action>)
    ensures Invariant(Run(actions))
  {
    hide Invariant;
    if actions == [] {
      StartHolds();
    } else {
      RunKeeps(actions[..|actions| - 1]);
      NextKeeps(Run(actions[..|actions| - 1]), actions[|actions| - 1]);
    }
  }

  lemma StartHolds()
    ensures Invariant(Run([]))
  {
  }

  // ---------------------------------------------------------------- theorems

  /** Over every sequence of refreshes, failures and library changes, the cache never lies: each stored rank is
      the position of the gallery's first occurrence in the index stored for that period. */
  lemma RanksAreSound(actions: seq<Action>, k: Key)
    requires k in Run(actions).tables.ranks
    ensures var t := Run(actions).tables;
              k.period in t.snapshots && IsRank(Ids(t.snapshots[k.period].bytes), k.gallery, t.ranks[k])
  {
    hide Ids, RankIn;
    RunKeeps(actions);
  }

  /** What a read returns after a backfill equals recomputing every rank, for all galleries present from the
      scan to the read; nothing outside the library is returned. */
  lemma ReadEqualsRecomputation(actions: seq<Action>)
    requires Run(actions).job.Backfilled?
    ensures var s := Run(actions); var t, p := s.tables, s.job.period;
            && p in t.snapshots && s.job.present <= t.Visible(p).Keys <= t.Library()
            && t.Visible(p) == Ranked(t.snapshots[p].bytes, t.Visible(p).Keys)
  {
    hide Ids, RankIn;
    RunKeeps(actions);
    var s := Run(actions);
    var t, p := s.tables, s.job.period;
    var visible := t.Visible(p);
    forall g | g in visible
      ensures visible[g] == RankIn(Ids(t.snapshots[p].bytes), g)
    {
      assert Key(p, g) in t.ranks;
    }
  }

  /** An accepted answer and its commit, with nothing in between, refresh the period; a rejected one changes nothing. */
  lemma StoreAlone(s: State, period: Period, bytes: seq<Byte>, date: string)
    requires s.job.Resting?
    ensures var t := Next(Next(s, Fetched(period, bytes, date)), CommitStore(true));
            if bytes != [] && |bytes| % 4 == 0
            then t.job == Ready(period) && Refreshed(s.tables, t.tables, period, bytes, date) else t == s
  {
    hide Refreshed, Ranked, Ids, Rows;
    ReplaceRefreshes(s.tables, period, bytes, date);
  }

  /** A scan and its commit, with nothing in between, fill the period. */
  lemma BackfillAlone(s: State)
    requires s.job.Ready? && s.job.period in s.tables.snapshots
    ensures var t := Next(Next(s, ScanMissing), CommitBackfill(true));
            t.job.Backfilled? && t.job.period == s.job.period && Filled(s.tables, t.tables, s.job.period)
  {
    hide Filled, Ranked, Ids, Rows;
    InsertFills(s.tables, s.job.period);
    NothingMissing(s.tables, s.job.period);
  }

  // --------------------------------------------------- from the scan to the read

  /** Library changes and the commit of the backfill. */
  predicate Between(a: Action) {
    a.AddEntry? || a.DeleteEntry? || a.CommitBackfill?
  }

  /** The state after a scan and what came behind it. */
  function Since(before: seq<Action>, more: seq<Action>): State {
    Run(before + [ScanMissing] + more)
  }

  /** The gallery is listed at the scan and after every action behind it. */
  ghost predicate Stays(before: seq<Action>, more: seq<Action>, g: int) {
    forall k: nat | k <= |more| :: Listed(Since(before, more[..k]).tables, g)
  }

  lemma SinceStep(before: seq<Action>, more: seq<Action>)
    requires more != []
    ensures Since(before, more) == Next(Since(before, more[..|more| - 1]), more[|more| - 1])
  {
    var all := before + [ScanMissing] + more;
    assert all[..|all| - 1] == before + [ScanMissing] + more[..|more| - 1];
  }

  lemma SinceScan(before: seq<Action>)
    ensures Since(before, []) == Next(Run(before), ScanMissing)
  {
    hide Ranked, Rows, Ids, Next;
    var all := before + [ScanMissing] + [];
    assert all[..|all| - 1] == before;
  }

  /** A gallery that stays is among those the job knows to be present. */
  lemma {:induction false} StayingIsPresent(before: seq<Action>, more: seq<Action>, g: int)
    requires Run(before).job.Ready? && (forall a | a in more :: Between(a)) && Stays(before, more, g)
    ensures var s := Since(before, more);
            && !s.job.Ready? && !s.job.Storing?
            && (!s.job.Resting? ==> s.job.period == Run(before).job.period && g in s.job.present)
  {
    hide Ranked, Rows, Run, IsRank;
    assert more[..|more|] == more && Listed(Since(before, more).tables, g);
    LibraryIsListed(Since(before, more).tables);
    if more == [] {
      SinceScan(before);
      RunKeeps(before);
    } else {
      var front := more[..|more| - 1];
      forall k: nat | k <= |front|
        ensures Listed(Since(before, front[..k]).tables, g)
      {
        assert front[..k] == more[..k];
      }
      StayingIsPresent(before, front, g);
      SinceStep(before, more);
      assert more[|more| - 1] in more;
      hide Since;
    }
  }

  /** With no gallery added, every listed gallery stays. */
  lemma {:induction false} NothingAdded(before: seq<Action>, more: seq<Action>, g: int)
    requires (forall a | a in more :: Between(a) && !a.AddEntry?) && Listed(Since(before, more).tables, g)
    ensures Stays(before, more, g)
  {
    hide Ranked, Rows, Run;
    forall k: nat | k <= |more|
      ensures Listed(Since(before, more[..k]).tables, g)
    {
      ListedBefore(before, more, g, k);
    }
  }

  lemma {:induction false} ListedBefore(before: seq<Action>, more: seq<Action>, g: int, k: nat)
    requires (forall a | a in more :: Between(a) && !a.AddEntry?) && Listed(Since(before, more).tables, g)
    requires k <= |more|
    ensures Listed(Since(before, more[..k]).tables, g)
    decreases |more|
  {
    hide Ranked, Rows, Run;
    if k == |more| {
      assert more[..k] == more;
    } else {
      var front := more[..|more| - 1];
      SinceStep(before, more);
      assert more[|more| - 1] in more;
      FewerEntries(Since(before, front), more[|more| - 1]);
      var e :| e in Since(before, more).tables.entries && Since(before, more).tables.entries[e] == g;
      ListedBefore(before, front, g, k);
      assert front[..k] == more[..k];
    }
  }

  lemma FewerEntries(s: State, a: Action)
    requires Between(a) && !a.AddEntry?
    ensures forall e | e in Next(s, a).tables.entries :: e in s.tables.entries
                                                         && s.tables.entries[e] == Next(s, a).tables.entries[e]
  {
    hide Ranked, Rows;
  }

  /** Whatever happened before the scan, and whatever galleries joined or left until the read: every gallery listed
      throughout is returned, only listed galleries are, each with the rank that recomputing from the stored index
      would give; and if none joined, that is the whole library. */
  lemma ReadAfterScan(before: seq<Action>, more: seq<Action>, g: int)
    requires Run(before).job.Ready? && (forall a | a in more :: Between(a)) && Since(before, more).job.Backfilled?
    ensures var t, p := Since(before, more).tables, Run(before).job.period;
            && p in t.snapshots
            && (g in t.Visible(p) ==> Listed(t, g) && IsRank(Ids(t.snapshots[p].bytes), g, t.Visible(p)[g]))
            && (Stays(before, more, g) ==> g in t.Visible(p))
            && (Listed(t, g) && (forall a | a in more :: !a.AddEntry?) ==> g in t.Visible(p))
  {
    hide Ids, RankIn, IsRank, Ranked, Rows, Run;
    var all := before + [ScanMissing] + more;
    var s, p := Since(before, more), Run(before).job.period;
    RunKeeps(all);
    SamePeriod(before, more);
    LibraryIsListed(s.tables);
    if g in s.tables.Visible(p) {
      assert Key(p, g) in s.tables.ranks;
      RanksAreSound(all, Key(p, g));
    }
    if Listed(s.tables, g) && forall a | a in more :: !a.AddEntry? {
      NothingAdded(before, more, g);
    }
    if Stays(before, more, g) {
      StayingIsPresent(before, more, g);
    }
  }

  lemma {:induction false} SamePeriod(before: seq<Action>, more: seq<Action>)
    requires Run(before).job.Ready? && forall a | a in more :: Between(a)
    ensures var s := Since(before, more);
            !s.job.Ready? && !s.job.Storing? && (!s.job.Resting? ==> s.job.period == Run(before).job.period)
  {
    hide Ranked, Rows, Run;
    if more == [] {
      SinceScan(before);
      RunKeeps(before);
    } else {
      SamePeriod(before, more[..|more| - 1]);
      SinceStep(before, more);
      assert more[|more| - 1] in more;
      hide Since;
    }
  }

  /** A step leaves every period alone but the one being refreshed, and a failed step changes no table. */
  lemma OtherPeriodsUntouched(s: State, a: Action, q: Period, g: int)
    requires s.job.Resting? || s.job.period != q || a.AddEntry? || a.DeleteEntry? || a == CommitStore(false)
               || a == CommitBackfill(false)
    ensures var t, u := s.tables, Next(s, a).tables;
            && (q in t.snapshots <==> q in u.snapshots) && (q in t.snapshots ==> u.snapshots[q] == t.snapshots[q])
            && (Key(q, g) in t.ranks <==> Key(q, g) in u.ranks)
                && (Key(q, g) in t.ranks ==> u.ranks[Key(q, g)] == t.ranks[Key(q, g)])
  {
    hide Ids, RankIn;
  }
}
