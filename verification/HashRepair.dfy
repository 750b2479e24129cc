/** Restoring missing page hashes after a committed merge (`repair_merge_hash_cache.py`): a plan made on
    read-only data, and one transaction that rechecks every page and never overwrites. */
module HashRepair {
  import opened Common

  // ------------------------------------------------------------------ tables

  /** A row of the hash cache; `data` stands for the hash columns. */
  datatype HashRow = HashRow(entry: string, gallery: int, page: int, profile: int, sha: string, data: string) {
    function Key(): CacheKey {
      CacheKey(entry, page, profile)
    }
  }

  datatype CacheKey = CacheKey(entry: string, page: int, profile: int)
  type Cache = map<CacheKey, HashRow>

  datatype Page = Page(entry: string, number: int, gallery: int, sha: string, path: string, length: int, present: bool,
      excluded: bool)
  datatype PageKey = PageKey(entry: string, number: int)
  datatype Artifact = Artifact(gallery: int)
  datatype Replacement = Replacement(sourcePage: int, sourceSha: string)

  /** The journal of a merge; `replacements` maps target pages to the source pages that replaced them. */
  datatype Journal = Journal(target: string, targetGallery: int, source: string, sourceGallery: int,
      replacements: map<int, Replacement>)
  datatype Merge = Merge(applied: bool, journal: Journal)

  datatype Tables = Tables(merges: map<string, Merge>, artifacts: map<string, Artifact>, pages: map<PageKey, Page>,
      cache: Cache) {
    /** Primary keys agree with the columns they are made of. */
    predicate Valid() {
      && (forall k | k in cache :: cache[k].Key() == k)
      && (forall k | k in pages :: pages[k].entry == k.entry && pages[k].number == k.number)
    }

    /** The schema's foreign key: a page belongs to an artifact, by entry and gallery. */
    predicate PagesReferArtifacts() {
      forall k | k in pages :: pages[k].entry in artifacts && artifacts[pages[k].entry].gallery == pages[k].gallery
    }
  }

  /** A managed file: whether it stays inside the root, and its actual bytes. */
  datatype File = File(inside: bool, sha: string, length: int)

  /** Whether the managed root itself resolves, and the files under it. */
  datatype Files = Files(root: bool, found: map<string, File>)

  // -------------------------------------------------------------------- plan

  /** What one plan works on. */
  datatype Job = Job(live: Tables, backup: Cache, journal: Journal, gallery: int) {
    predicate Valid() {
      live.Valid() && forall k | k in backup :: backup[k].Key() == k
    }

    /** Pages of the target that are present and not excluded. */
    predicate Selected(page: Page) {
      var k := PageKey(page.entry, page.number);
      k in live.pages && live.pages[k] == page && page.entry == journal.target && page.present && !page.excluded
    }

    function SelectedPages(): set<Page> {
      set k | k in live.pages && Selected(live.pages[k]) :: live.pages[k]
    }

    /** Backup rows that describe exactly this page and these bytes. */
    function BackupRows(page: Page): set<HashRow> {
      set k | k in backup && MatchesBackup(backup[k], page) :: backup[k]
    }

    predicate MatchesBackup(row: HashRow, page: Page) {
      row.entry == journal.target && row.gallery == gallery && row.page == page.number && row.sha == page.sha
    }

    /** The page's bytes came from the merge's source, and the live cache knows that source page. */
    function DonorRows(page: Page): set<HashRow> {
      set k | k in live.cache && MatchesDonor(live.cache[k], page) :: live.cache[k]
    }

    predicate MatchesDonor(row: HashRow, page: Page) {
      && page.number in journal.replacements
      && var donor := journal.replacements[page.number];
      && donor.sourceSha == page.sha
      && row.entry == journal.source && row.gallery == journal.sourceGallery && row.page == donor.sourcePage
          && row.sha == page.sha
    }

    /** The row as it will be stored for the target page. */
    function Restored(row: HashRow, page: Page): HashRow {
      row.(entry := journal.target, gallery := gallery, page := page.number)
    }

    function DonorKey(page: Page, profile: int): CacheKey
      requires page.number in journal.replacements
    {
      CacheKey(journal.source, journal.replacements[page.number].sourcePage, profile)
    }

    /** What is added for a page and a profile: nothing over a live row; a donor before the backup. */
    function Addition(page: Page, profile: int): Option<HashRow> {
      var backupKey := CacheKey(journal.target, page.number, profile);
      if backupKey in live.cache then None
      else if page.number in journal.replacements && DonorKey(page, profile) in live.cache
          && MatchesDonor(live.cache[DonorKey(page, profile)], page)
      then Some(Restored(live.cache[DonorKey(page, profile)], page))
      else if backupKey in backup && MatchesBackup(backup[backupKey], page) then Some(Restored(backup[backupKey], page))
      else None
    }

    /** The rows of the whole plan. */
    predicate Planned(row: HashRow) {
      var k := PageKey(journal.target, row.page);
      k in live.pages && Selected(live.pages[k]) && Addition(live.pages[k], row.profile) == Some(row)
    }

    /** The planned rows of some of the pages. */
    predicate PlannedFor(row: HashRow, pages: set<Page>) {
      Planned(row) && live.pages[PageKey(journal.target, row.page)] in pages
    }

    ghost predicate Wanted(page: Page) {
      exists v :: Addition(page, v).Some?
    }

    /** Every page that gets a row still has the bytes of its checkpoint. */
    ghost predicate AllVerified(files: Files, pages: set<Page>) {
      forall page | page in pages && Wanted(page) :: Verified(files, page)
    }

    /** The file behind a page is inside the root and byte-identical to its checkpoint. */
    predicate Verified(files: Files, page: Page) {
      && page.path in files.found
      && var file := files.found[page.path];
      file.inside && file.length == page.length && file.sha == page.sha
    }
  }

  /** The merge that may be repaired: committed, and its target still the same album. */
  function Start(live: Tables, backup: Cache, merge: string): Result<Job> {
    if merge !in live.merges || !live.merges[merge].applied then Invalid else
      var journal := live.merges[merge].journal;
      var known := journal.target in live.artifacts;
      if !known || live.artifacts[journal.target].gallery != journal.targetGallery then Invalid
      else Ok(Job(live, backup, journal, live.artifacts[journal.target].gallery))
  }

  // -------------------------------------------------- what a repair restores

  /** A committed merge whose target is still the same album. */
  predicate Repairable(live: Tables, merge: string) {
    && merge in live.merges && live.merges[merge].applied
    && live.merges[merge].journal.target in live.artifacts
    && live.artifacts[live.merges[merge].journal.target].gallery == live.merges[merge].journal.targetGallery
  }

  /** `x` is a cached row of the source page that replaced `page`, for the same bytes. */
  predicate FromDonor(live: Tables, j: Journal, page: Page, x: HashRow) {
    && x in live.cache.Values && x.sha == page.sha
    && x.entry == j.source && x.gallery == j.sourceGallery
    && page.number in j.replacements && j.replacements[page.number] == Replacement(x.page, page.sha)
  }

  /** `x` is the backup's row of the page itself, for the same bytes. */
  predicate FromBackup(backup: Cache, j: Journal, page: Page, x: HashRow) {
    && x in backup.Values && x.sha == page.sha
    && x.entry == j.target && x.gallery == j.targetGallery && x.page == page.number
  }

  /** `page` is a page of the target that is present and not excluded, and lacks the profile. */
  predicate Lacks(live: Tables, j: Journal, page: Page, profile: int) {
    && page in live.pages.Values && page.entry == j.target && page.present && !page.excluded
    && forall x | x in live.cache.Values :: x.entry == j.target && x.page == page.number ==> x.profile != profile
  }

  /** Where the hashes of a restored row come from: the donor if it has the profile, else the backup. */
  ghost predicate Copies(live: Tables, backup: Cache, j: Journal, page: Page, x: HashRow) {
    || FromDonor(live, j, page, x)
    || (FromBackup(backup, j, page, x) && forall y | FromDonor(live, j, page, y) :: y.profile != x.profile)
  }

  /** The row for a page of the target: its hash columns, profile and bytes are those of the row it copies. */
  ghost predicate Restores(live: Tables, backup: Cache, j: Journal, page: Page, row: HashRow) {
    && Lacks(live, j, page, row.profile)
    && exists x :: Copies(live, backup, j, page, x)
                   && row == HashRow(j.target, j.targetGallery, page.number, x.profile, x.sha, x.data)
  }

  lemma StartIff(live: Tables, backup: Cache, merge: string)
    ensures Start(live, backup, merge).Ok? <==> Repairable(live, merge)
    ensures Repairable(live, merge) ==>
              var j := live.merges[merge].journal;
              Start(live, backup, merge) == Ok(Job(live, backup, j, j.targetGallery))
  {
  }

  /** The rows of the two queries are those found under their keys. */
  lemma RowsByKey(job: Job, page: Page, profile: int)
    requires job.Valid() && job.gallery == job.journal.targetGallery
    ensures var k := CacheKey(job.journal.target, page.number, profile);
            && (forall x :: FromBackup(job.backup, job.journal, page, x) && x.profile == profile <==>
                            k in job.backup && x == job.backup[k] && job.MatchesBackup(x, page))
            && (k in job.live.cache <==> exists x :: x in job.live.cache.Values && x.Key() == k)
    ensures forall x :: FromDonor(job.live, job.journal, page, x) && x.profile == profile <==>
                        page.number in job.journal.replacements && job.DonorKey(page, profile) in job.live.cache
                        && x == job.live.cache[job.DonorKey(page, profile)] && job.MatchesDonor(x, page)
  {
    var k := CacheKey(job.journal.target, page.number, profile);
    forall x | x in job.backup.Values
      ensures x.Key() in job.backup && job.backup[x.Key()] == x
    {
    }
    forall x | x in job.live.cache.Values
      ensures x.Key() in job.live.cache && job.live.cache[x.Key()] == x
    {
    }
    assert k in job.live.cache ==> job.live.cache[k] in job.live.cache.Values;
  }

  lemma AdditionIff(job: Job, page: Page, row: HashRow)
    requires job.Valid() && job.gallery == job.journal.targetGallery && job.Selected(page)
    ensures job.Addition(page, row.profile) == Some(row) <==>
            Restores(job.live, job.backup, job.journal, page, row)
  {
    hide Job.MatchesBackup, Job.MatchesDonor, FromDonor, FromBackup;
    RowsByKey(job, page, row.profile);
    var k := CacheKey(job.journal.target, page.number, row.profile);
    assert page in job.live.pages.Values;
    assert k in job.live.cache <==> !Lacks(job.live, job.journal, page, row.profile);
    if job.Addition(page, row.profile) == Some(row) {
      var x := if page.number in job.journal.replacements && job.DonorKey(page, row.profile) in job.live.cache
                  && job.MatchesDonor(job.live.cache[job.DonorKey(page, row.profile)], page)
               then job.live.cache[job.DonorKey(page, row.profile)] else job.backup[k];
      assert Copies(job.live, job.backup, job.journal, page, x);
    }
  }

  /** The planned rows, told without the plan: exactly what is lacking and can be copied. */
  lemma PlannedIff(job: Job, row: HashRow)
    requires job.Valid() && job.gallery == job.journal.targetGallery
    ensures job.Planned(row) <==> exists page :: Restores(job.live, job.backup, job.journal, page, row)
    ensures job.Planned(row) ==>
              Restores(job.live, job.backup, job.journal, job.live.pages[PageKey(job.journal.target, row.page)], row)
  {
    hide Job.MatchesBackup, Job.MatchesDonor, FromDonor, FromBackup;
    if job.Planned(row) {
      var page := job.live.pages[PageKey(job.journal.target, row.page)];
      RowsByKey(job, page, row.profile);
      AdditionIff(job, page, row);
    }
    if page :| Restores(job.live, job.backup, job.journal, page, row) {
      assert PageKey(page.entry, page.number) in job.live.pages;
      RowsByKey(job, page, row.profile);
      AdditionIff(job, page, row);
    }
  }

  predicate DistinctKeys(rows: seq<HashRow>) {
    forall i, j | 0 <= i < j < |rows| :: rows[i].Key() != rows[j].Key()
  }

  predicate OnePerProfile(rows: set<HashRow>) {
    forall x, y | x in rows && y in rows && x.profile == y.profile :: x == y
  }

  ghost function RowOf(rows: set<HashRow>, profile: int): (row: HashRow)
    requires exists x :: x in rows && x.profile == profile
    ensures row in rows && row.profile == profile
  {
    var row :| row in rows && row.profile == profile;
    row
  }

  /** Additions of one query, by profile; a profile the live cache has for the page is skipped. */
  ghost function Fresh(job: Job, page: Page, rows: set<HashRow>): (additions: map<int, HashRow>)
    requires OnePerProfile(rows)
    ensures forall v :: v in additions <==>
              (exists x :: x in rows && x.profile == v)
              && CacheKey(job.journal.target, page.number, v) !in job.live.cache
    ensures forall x | x in rows && x.profile in additions :: additions[x.profile] == job.Restored(x, page)
  {
    var profiles := set x | x in rows :: x.profile;
    map v | v in profiles && CacheKey(job.journal.target, page.number, v) !in job.live.cache ::
      job.Restored(RowOf(rows, v), page)
  }

  method AddCandidates(job: Job, page: Page, rows: set<HashRow>, before: map<int, HashRow>)
      returns (additions: map<int, HashRow>)
    requires OnePerProfile(rows)
    ensures additions == before + Fresh(job, page, rows)
  {
    additions := before;
    var left := rows;
    NothingFresh(job, page, rows - left);
    hide Fresh, OnePerProfile;
    while left != {}
      invariant left <= rows && OnePerProfile(rows - left)
      invariant additions == before + Fresh(job, page, rows - left)
      decreases left
    {
      ghost var some := SomeMember(left);
      var cached :| cached in left;
      FreshStep(job, page, rows, left, cached);
      if CacheKey(job.journal.target, page.number, cached.profile) !in job.live.cache {
        Overlay(before, Fresh(job, page, rows - left), cached.profile, job.Restored(cached, page));
        additions := additions[cached.profile := job.Restored(cached, page)];
      }
      left := left - {cached};
    }
    assert rows - left == rows;
  }

  lemma NothingFresh(job: Job, page: Page, rows: set<HashRow>)
    requires rows == {}
    ensures OnePerProfile(rows) && forall before: map<int, HashRow> :: before + Fresh(job, page, rows) == before
  {
    assert Fresh(job, page, rows) == map[];
  }

  lemma Overlay(before: map<int, HashRow>, m: map<int, HashRow>, k: int, row: HashRow)
    ensures before + m[k := row] == (before + m)[k := row]
  {
  }

  lemma FreshStep(job: Job, page: Page, rows: set<HashRow>, left: set<HashRow>, cached: HashRow)
    requires OnePerProfile(rows) && left <= rows && cached in left
    ensures OnePerProfile(rows - left) && OnePerProfile(rows - (left - {cached}))
    ensures Fresh(job, page, rows - (left - {cached}))
         == if CacheKey(job.journal.target, page.number, cached.profile) in job.live.cache
             then Fresh(job, page, rows - left)
            else Fresh(job, page, rows - left)[cached.profile := job.Restored(cached, page)]
  {
    var more, fewer := rows - (left - {cached}), rows - left;
    assert forall x :: x in more <==> x in fewer || x == cached;
  }

  lemma QueriesHaveOneRowPerProfile(job: Job, page: Page)
    requires job.Valid()
    ensures OnePerProfile(job.BackupRows(page)) && OnePerProfile(job.DonorRows(page))
  {
    forall x, y | x in job.BackupRows(page) && y in job.BackupRows(page) && x.profile == y.profile
      ensures x == y
    {
      assert x.Key() == y.Key();
    }
    forall x, y | x in job.DonorRows(page) && y in job.DonorRows(page) && x.profile == y.profile
      ensures x == y
    {
      assert x.Key() == y.Key();
    }
  }

  /** All additions for one page. */
  method PlanPage(job: Job, page: Page) returns (additions: map<int, HashRow>)
    requires job.Valid()
    ensures forall v :: v in additions <==> job.Addition(page, v).Some?
    ensures forall v | v in additions :: additions[v] == job.Addition(page, v).value
  {
    QueriesHaveOneRowPerProfile(job, page);
    additions := AddCandidates(job, page, job.BackupRows(page), map[]);
    additions := AddCandidates(job, page, job.DonorRows(page), additions);
    forall v
      ensures v in additions <==> job.Addition(page, v).Some?
      ensures v in additions ==> additions[v] == job.Addition(page, v).value
    {
      AdditionFound(job, page, v);
    }
  }

  /** The rows the queries return for a profile are those found under its keys. */
  lemma AdditionFound(job: Job, page: Page, v: int)
    requires job.Valid()
    requires OnePerProfile(job.BackupRows(page)) && OnePerProfile(job.DonorRows(page))
    ensures var additions := Fresh(job, page, job.BackupRows(page)) + Fresh(job, page, job.DonorRows(page));
            && (v in additions <==> job.Addition(page, v).Some?)
            && (v in additions ==> additions[v] == job.Addition(page, v).value)
  {
    var k := CacheKey(job.journal.target, page.number, v);
    if k in job.backup && job.MatchesBackup(job.backup[k], page) {
      assert job.backup[k] in job.BackupRows(page) && job.backup[k].profile == v;
    }
    if page.number in job.journal.replacements {
      var d := job.DonorKey(page, v);
      if d in job.live.cache && job.MatchesDonor(job.live.cache[d], page) {
        assert job.live.cache[d] in job.DonorRows(page) && job.live.cache[d].profile == v;
      }
    }
    forall x | x in job.BackupRows(page) && x.profile == v
      ensures k in job.backup && x == job.backup[k]
    {
      assert x.Key() == k;
    }
    forall x | x in job.DonorRows(page) && x.profile == v
      ensures job.DonorKey(page, v) in job.live.cache && x == job.live.cache[job.DonorKey(page, v)]
    {
      assert x.Key() == job.DonorKey(page, v);
    }
  }

  predicate ByProfile(additions: map<int, HashRow>) {
    forall v | v in additions :: additions[v].profile == v
  }

  /** The values of the additions, in some order. */
  method Values(additions: map<int, HashRow>) returns (rows: seq<HashRow>)
    requires ByProfile(additions)
    ensures DistinctKeys(rows)
    ensures forall row :: row in rows <==> row.profile in additions && additions[row.profile] == row
  {
    rows := [];
    var left := additions.Keys;
    while left != {}
      invariant left <= additions.Keys && DistinctKeys(rows)
      invariant forall row :: row in rows <==> row.profile in additions.Keys - left && additions[row.profile] == row
      decreases left
    {
      ghost var some := SomeMember(left);
      var v :| v in left;
      assert forall row | row in rows :: row.profile != v;
      rows := rows + [additions[v]];
      left := left - {v};
    }
  }

  /** One page adds its own planned rows, and no key of another page. */
  lemma PageAdds(job: Job, page: Page, additions: map<int, HashRow>, rows: seq<HashRow>, more: seq<HashRow>,
      done: set<Page>)
    requires job.Valid() && page in job.SelectedPages() && page !in done && done <= job.SelectedPages()
    requires forall v :: v in additions <==> job.Addition(page, v).Some?
    requires forall v | v in additions :: additions[v] == job.Addition(page, v).value
    requires DistinctKeys(rows) && forall row :: row in rows <==> job.PlannedFor(row, done)
    requires DistinctKeys(more)
    requires forall row :: row in more <==> row.profile in additions && additions[row.profile] == row
    ensures DistinctKeys(rows + more)
    ensures forall row :: row in rows + more <==> job.PlannedFor(row, done + {page})
  {
    hide Job.MatchesBackup, Job.MatchesDonor;
    forall row
      ensures row in more <==> job.PlannedFor(row, {page})
    {
      if row in more {
        assert row.page == page.number;
      }
    }
    forall i, j | 0 <= i < |rows| && 0 <= j < |more|
      ensures rows[i].Key() != more[j].Key()
    {
      assert rows[i] in rows && more[j] in more;
    }
  }

  /** A page gets a row exactly when something is restored for it. */
  lemma WantedIff(job: Job, page: Page)
    requires job.Valid() && job.gallery == job.journal.targetGallery && job.Selected(page)
    ensures job.Wanted(page) <==> exists row :: Restores(job.live, job.backup, job.journal, page, row)
  {
    hide Restores, Job.MatchesBackup, Job.MatchesDonor;
    if v :| job.Addition(page, v).Some? {
      var row := job.Addition(page, v).value;
      assert row.profile == v;
      AdditionIff(job, page, row);
    }
    if row :| Restores(job.live, job.backup, job.journal, page, row) {
      AdditionIff(job, page, row);
    }
  }

  /** The current file of the page lies under the root and has the bytes of the page's checkpoint. */
  predicate Intact(files: Files, page: Page) {
    page.path in files.found && files.found[page.path] == File(true, page.sha, page.length)
  }

  /** Every page that something is restored for is intact. */
  ghost predicate AllIntact(live: Tables, backup: Cache, files: Files, j: Journal) {
    forall page, row :: Restores(live, backup, j, page, row) ==> Intact(files, page)
  }

  lemma VerifiedIff(job: Job, files: Files)
    requires job.Valid() && job.gallery == job.journal.targetGallery
    ensures job.AllVerified(files, job.SelectedPages()) <==> AllIntact(job.live, job.backup, files, job.journal)
  {
    hide Job.MatchesBackup, Job.MatchesDonor, Copies, Job.Wanted;
    forall page, row | Restores(job.live, job.backup, job.journal, page, row)
      ensures page in job.SelectedPages() && job.Wanted(page)
    {
      assert PageKey(page.entry, page.number) in job.live.pages;
      WantedIff(job, page);
    }
    forall page | page in job.SelectedPages() && job.Wanted(page)
      ensures exists row :: Restores(job.live, job.backup, job.journal, page, row)
    {
      WantedIff(job, page);
    }
    hide Restores;
  }

  /** `plan`: nothing is changed, and the rows are exactly those a repair restores; it succeeds exactly when the
      merge may be repaired and every page that gets a row is intact. */
  method Plan(live: Tables, backup: Cache, files: Files, merge: string) returns (r: Result<seq<HashRow>>)
    requires live.Valid() && forall k | k in backup :: backup[k].Key() == k
    ensures r.Ok? <==>
            && Repairable(live, merge) && files.root
            && AllIntact(live, backup, files, live.merges[merge].journal)
    ensures r.Ok? ==>
              forall row :: row in r.value <==>
                            exists page :: Restores(live, backup, live.merges[merge].journal, page, row)
    ensures r.Ok? <==>
            && Start(live, backup, merge).Ok? && files.root
            && var job := Start(live, backup, merge).value; job.AllVerified(files, job.SelectedPages())
    ensures r.Ok? ==> DistinctKeys(r.value)
    ensures r.Ok? ==> forall row :: row in r.value <==> Start(live, backup, merge).value.Planned(row)
  {
    hide Job.MatchesBackup, Job.MatchesDonor, Job.Addition, Restores;
    StartIff(live, backup, merge);
    var job :- Start(live, backup, merge);
    VerifiedIff(job, files);
    if !files.root {
      return Invalid;
    }
    var rows: seq<HashRow> := [];
    var left := job.SelectedPages();
    while left != {}
      invariant left <= job.SelectedPages() && DistinctKeys(rows)
      invariant forall row :: row in rows <==> job.PlannedFor(row, job.SelectedPages() - left)
      invariant job.AllVerified(files, job.SelectedPages() - left)
      decreases left
    {
      ghost var some := SomeMember(left);
      var page :| page in left;
      var additions := PlanPage(job, page);
      if additions != map[] {
        assert job.Wanted(page) by { SomeAddition(job, page, additions); }
        if !job.Verified(files, page) {
          return Invalid;
        }
      }
      AdditionProfiles(job, page, additions);
      var more := Values(additions);
      PageAdds(job, page, additions, rows, more, job.SelectedPages() - left);
      assert job.SelectedPages() - (left - {page}) == job.SelectedPages() - left + {page};
      rows := rows + more;
      left := left - {page};
    }
    assert job.SelectedPages() - left == job.SelectedPages();
    forall row
      ensures job.PlannedFor(row, job.SelectedPages()) <==> job.Planned(row)
      ensures job.Planned(row) <==> exists page :: Restores(live, backup, job.journal, page, row)
    {
      PlannedIff(job, row);
    }
    return Ok(rows);
  }

  lemma SomeAddition(job: Job, page: Page, additions: map<int, HashRow>)
    requires additions != map[] && forall v :: v in additions <==> job.Addition(page, v).Some?
    ensures job.Wanted(page)
  {
    assert additions.Keys != {};
    var v := SomeMember(additions.Keys);
    assert job.Addition(page, v).Some?;
  }

  lemma AdditionProfiles(job: Job, page: Page, additions: map<int, HashRow>)
    requires job.Valid()
    requires forall v :: v in additions <==> job.Addition(page, v).Some?
    requires forall v | v in additions :: additions[v] == job.Addition(page, v).value
    ensures ByProfile(additions)
  {
  }

  // ------------------------------------------------------------------- apply

  predicate HasKey(rows: seq<HashRow>, k: CacheKey) {
    exists i :: 0 <= i < |rows| && rows[i].Key() == k
  }

  /** `INSERT OR IGNORE` of every row, in order. */
  function InsertAll(cache: Cache, rows: seq<HashRow>): Cache {
    if rows == [] then cache else
      var before, row := InsertAll(cache, rows[..|rows| - 1]), rows[|rows| - 1];
      if row.Key() in before then before else before[row.Key() := row]
  }

  /** No existing row changes, every key of the rows is there afterwards, and nothing else is. */
  lemma {:induction false} NeverOverwrites(cache: Cache, rows: seq<HashRow>)
    ensures var after := InsertAll(cache, rows);
            && (forall k | k in cache :: k in after && after[k] == cache[k])
            && (forall k :: k in after <==> k in cache || HasKey(rows, k))
            && (forall k | k in after && k !in cache :: after[k] in rows && after[k].Key() == k)
  {
    hide HasKey;
    if rows == [] {
      assert forall k :: !HasKey(rows, k) by { NoKeys(rows); }
    } else {
      NeverOverwrites(cache, rows[..|rows| - 1]);
      HasKeySplit(rows);
    }
  }

  lemma NoKeys(rows: seq<HashRow>)
    requires rows == []
    ensures forall k :: !HasKey(rows, k)
  {
  }

  lemma HasKeySplit(rows: seq<HashRow>)
    requires rows != []
    ensures var n := |rows| - 1; forall k :: HasKey(rows, k) <==> HasKey(rows[..n], k) || k == rows[n].Key()
  {
    var n := |rows| - 1;
    forall k
      ensures HasKey(rows, k) <==> HasKey(rows[..n], k) || k == rows[n].Key()
    {
      if HasKey(rows[..n], k) {
        var i :| 0 <= i < n && rows[..n][i].Key() == k;
        assert rows[i].Key() == k;
      }
      if HasKey(rows, k) && k != rows[n].Key() {
        var i :| 0 <= i < |rows| && rows[i].Key() == k;
        assert rows[..n][i].Key() == k;
      }
    }
  }

  lemma InsertNone(cache: Cache, rows: seq<HashRow>)
    requires rows == []
    ensures InsertAll(cache, rows) == cache
  {
  }

  lemma InsertOne(cache: Cache, rows: seq<HashRow>, i: nat)
    requires i < |rows|
    ensures var before, k := InsertAll(cache, rows[..i]), rows[i].Key();
            InsertAll(cache, rows[..i + 1]) == if k in before then before else before[k := rows[i]]
  {
    assert rows[..i + 1][..i] == rows[..i];
  }

  /** The page checkpoint a row was planned for still holds. */
  predicate StillMatches(live: Tables, row: HashRow) {
    var k := PageKey(row.entry, row.page);
    k in live.pages && var page := live.pages[k];
    page.gallery == row.gallery && page.sha == row.sha && page.present && !page.excluded
  }

  /** The same, asked by columns: some page has the row's entry, gallery, number and bytes, and counts. */
  predicate Recorded(live: Tables, row: HashRow) {
    exists page :: page in live.pages.Values && page.entry == row.entry && page.number == row.page
                   && page.gallery == row.gallery && page.sha == row.sha && page.present && !page.excluded
  }

  lemma RecordedIff(live: Tables, row: HashRow)
    requires live.Valid()
    ensures StillMatches(live, row) <==> Recorded(live, row)
  {
    if page :| page in live.pages.Values && page.entry == row.entry && page.number == row.page
               && page.gallery == row.gallery && page.sha == row.sha && page.present && !page.excluded {
      assert PageKey(page.entry, page.number) in live.pages;
    }
  }

  predicate MayCommit(live: Tables, merge: string, rows: seq<HashRow>) {
    merge in live.merges && live.merges[merge].applied && forall row | row in rows :: StillMatches(live, row)
  }

  /** The loop of `apply`, inside its transaction: recheck, insert, count. */
  method InsertRows(live: Tables, rows: seq<HashRow>) returns (ok: bool, pending: Cache, inserted: nat)
    ensures ok <==> forall row | row in rows :: StillMatches(live, row)
    ensures ok ==> pending == InsertAll(live.cache, rows) && |pending| == |live.cache| + inserted
  {
    hide InsertAll, HasKey, StillMatches;
    pending, inserted := live.cache, 0;
    InsertNone(live.cache, rows[..0]);
    for i := 0 to |rows|
      invariant pending == InsertAll(live.cache, rows[..i]) && |pending| == |live.cache| + inserted
      invariant forall j | 0 <= j < i :: StillMatches(live, rows[j])
    {
      if !StillMatches(live, rows[i]) {
        assert rows[i] in rows;
        return false, live.cache, 0;
      }
      InsertOne(live.cache, rows, i);
      if rows[i].Key() !in pending {
        pending := pending[rows[i].Key() := rows[i]];
        inserted := inserted + 1;
      }
    }
    assert rows[..|rows|] == rows;
    ok := true;
  }

  class Database {
    var tables: Tables

    constructor (tables: Tables)
      ensures this.tables == tables
    {
      this.tables := tables;
    }

    /** `apply`: all rows or none. The backup copy may fail, and so may the commit. */
    method Apply(merge: string, rows: seq<HashRow>, backupFails: bool, commitFails: bool) returns (r: Result<nat>)
      modifies this
      ensures r.Ok? <==> !backupFails && !commitFails && MayCommit(old(tables), merge, rows)
      ensures old(tables).Valid() ==>
                tables.Valid()
                && (r.Ok? <==> !backupFails && !commitFails && merge in old(tables).merges
                               && old(tables).merges[merge].applied
                               && forall row | row in rows :: Recorded(old(tables), row))
      ensures r.Invalid? ==> tables == old(tables)
      ensures r.Ok? ==>
                tables == old(tables).(cache := InsertAll(old(tables).cache, rows))
                && |tables.cache| == |old(tables).cache| + r.value
    {
      hide InsertAll, HasKey, StillMatches, Recorded;
      NeverOverwrites(tables.cache, rows);
      ghost var valid := tables.Valid();
      if valid {
        forall row | row in rows
          ensures StillMatches(tables, row) <==> Recorded(tables, row)
        {
          RecordedIff(tables, row);
        }
      }
      if backupFails {
        return Invalid;
      }
      if merge !in tables.merges || !tables.merges[merge].applied {
        return Invalid;
      }
      var ok, pending, inserted := InsertRows(tables, rows);
      if !ok || commitFails {
        return Invalid;
      }
      tables := tables.(cache := pending);
      return Ok(inserted);
    }
  }

  // ---------------------------------------------------------------- theorems

  /** A fresh plan, applied with no other writer in between, commits exactly when every planned page is
      recorded under the artifact's own gallery. */
  lemma FreshPlanCommits(job: Job, merge: string, rows: seq<HashRow>)
    requires job.Valid() && Start(job.live, job.backup, merge) == Ok(job)
    requires forall row :: row in rows <==> job.Planned(row)
    ensures MayCommit(job.live, merge, rows) <==>
            forall page | page in job.SelectedPages() && job.Wanted(page) :: page.gallery == job.gallery
  {
    forall row | row in rows
      ensures StillMatches(job.live, row) <==>
                job.live.pages[PageKey(job.journal.target, row.page)].gallery == job.gallery
    {
      assert job.Planned(row);
    }
    if MayCommit(job.live, merge, rows) {
      forall page | page in job.SelectedPages() && job.Wanted(page)
        ensures page.gallery == job.gallery
      {
        var v :| job.Addition(page, v).Some?;
        var row := job.Addition(page, v).value;
        assert job.Planned(row);
        assert row in rows && StillMatches(job.live, row);
      }
    }
    if forall page | page in job.SelectedPages() && job.Wanted(page) :: page.gallery == job.gallery {
      forall row | row in rows
        ensures StillMatches(job.live, row)
      {
        assert job.Planned(row);
        var page := job.live.pages[PageKey(job.journal.target, row.page)];
        assert page in job.SelectedPages() && job.Addition(page, row.profile).Some?;
      }
    }
  }

  /** Where pages refer to artifacts as the schema demands, every undisturbed plan commits. */
  lemma SchemaPlanCommits(job: Job, merge: string, rows: seq<HashRow>)
    requires job.Valid() && job.live.PagesReferArtifacts()
    requires Start(job.live, job.backup, merge) == Ok(job) && forall row :: row in rows <==> job.Planned(row)
    ensures MayCommit(job.live, merge, rows)
  {
    FreshPlanCommits(job, merge, rows);
  }

  /** The job as it stands after the rows were stored. */
  function Afterwards(job: Job, rows: seq<HashRow>): Job {
    job.(live := job.live.(cache := InsertAll(job.live.cache, rows)))
  }

  /** A row planned for one page would serve as the donor of another: the merge names the target as its own
      source, and the page that replaced `page` is planned while `page` itself gets nothing. */
  predicate FeedsItself(job: Job, page: Page, profile: int) {
    && job.Selected(page) && page.number in job.journal.replacements
    && job.journal.source == job.journal.target && job.journal.sourceGallery == job.gallery
    && CacheKey(job.journal.target, page.number, profile) !in job.live.cache && job.Addition(page, profile) == None
    && var donor := job.journal.replacements[page.number];
    && var k := PageKey(job.journal.target, donor.sourcePage);
    && donor.sourceSha == page.sha
    && k in job.live.pages && job.Selected(job.live.pages[k])
    && var planned := job.Addition(job.live.pages[k], profile);
    && planned.Some? && planned.value.sha == page.sha
  }

  /** After the rows were stored: what is added for a page is what the plan fed to itself. */
  lemma SecondAddition(job: Job, rows: seq<HashRow>, page: Page, profile: int)
    requires job.Valid() && job.Selected(page)
    requires forall row :: row in rows <==> job.Planned(row)
    ensures Afterwards(job, rows).Addition(page, profile).Some? <==> FeedsItself(job, page, profile)
  {
    var later := Afterwards(job, rows);
    var k := CacheKey(job.journal.target, page.number, profile);
    KeyPlanned(job, rows, page, profile);
    if job.Addition(page, profile) == None && k !in job.live.cache && page.number in job.journal.replacements {
      DonorAfterwards(job, rows, page, profile);
    }
  }

  /** A key of the target is new exactly when the plan adds a row for it. */
  lemma KeyPlanned(job: Job, rows: seq<HashRow>, page: Page, profile: int)
    requires job.Valid() && job.Selected(page)
    requires forall row :: row in rows <==> job.Planned(row)
    ensures var k := CacheKey(job.journal.target, page.number, profile); var after := InsertAll(job.live.cache, rows);
            && (k in after <==> k in job.live.cache || job.Addition(page, profile).Some?)
            && (k in after && k !in job.live.cache ==> after[k] == job.Addition(page, profile).value)
  {
    var k := CacheKey(job.journal.target, page.number, profile);
    var after := InsertAll(job.live.cache, rows);
    NeverOverwrites(job.live.cache, rows);
    if k in after && k !in job.live.cache {
      assert after[k] in rows && job.Planned(after[k]);
    }
    if job.Addition(page, profile).Some? {
      var row := job.Addition(page, profile).value;
      assert job.Planned(row) && row in rows && row.Key() == k;
      assert HasKey(rows, k);
    }
  }

  lemma DonorAfterwards(job: Job, rows: seq<HashRow>, page: Page, profile: int)
    requires job.Valid() && job.Selected(page) && page.number in job.journal.replacements
    requires forall row :: row in rows <==> job.Planned(row)
    requires CacheKey(job.journal.target, page.number, profile) !in job.live.cache
               && job.Addition(page, profile) == None
    ensures var after, d := InsertAll(job.live.cache, rows), job.DonorKey(page, profile);
            (d in after && job.MatchesDonor(after[d], page)) <==> FeedsItself(job, page, profile)
  {
    var after, d := InsertAll(job.live.cache, rows), job.DonorKey(page, profile);
    NeverOverwrites(job.live.cache, rows);
    var k := PageKey(job.journal.target, d.page);
    if d in after && d !in job.live.cache {
      assert after[d] in rows && job.Planned(after[d]);
    }
    if d.entry == job.journal.target && k in job.live.pages && job.Selected(job.live.pages[k]) {
      KeyPlanned(job, rows, job.live.pages[k], profile);
    }
  }

  /** A second plan over the repaired database finds nothing, exactly when no planned row feeds another page. */
  lemma SecondPlanEmptyIff(job: Job, rows: seq<HashRow>)
    requires job.Valid() && forall row :: row in rows <==> job.Planned(row)
    ensures (forall row :: !Afterwards(job, rows).Planned(row))
              <==> (forall page, profile :: !FeedsItself(job, page, profile))
  {
    hide FeedsItself, InsertAll, HasKey;
    NeverOverwrites(job.live.cache, rows);
    var later := Afterwards(job, rows);
    if page, profile :| FeedsItself(job, page, profile) {
      FeedsSelected(job, page, profile);
      SecondAddition(job, rows, page, profile);
      assert later.Planned(later.Addition(page, profile).value);
    }
    if row :| later.Planned(row) {
      SecondAddition(job, rows, job.live.pages[PageKey(job.journal.target, row.page)], row.profile);
    }
  }

  lemma FeedsSelected(job: Job, page: Page, profile: int)
    requires FeedsItself(job, page, profile)
    ensures job.Selected(page)
  {
  }

  /** A merge of two different entries never feeds itself: its second plan is empty. */
  lemma DifferentEntriesSettle(job: Job, rows: seq<HashRow>)
    requires job.Valid() && job.journal.source != job.journal.target && forall row :: row in rows <==> job.Planned(row)
    ensures forall row :: !Afterwards(job, rows).Planned(row)
  {
    SecondPlanEmptyIff(job, rows);
  }

  /** The exception is real: an entry merged into itself, two identical pages, one of them in the backup. The
      plan starts and commits, and the plan made after it is not empty. */
  lemma SelfMergeFeeds() returns (job: Job, rows: seq<HashRow>, later: HashRow)
    ensures job.Valid() && job.live.PagesReferArtifacts() && Start(job.live, job.backup, "m") == Ok(job)
    ensures (forall row :: row in rows <==> job.Planned(row)) && MayCommit(job.live, "m", rows)
    ensures Start(Afterwards(job, rows).live, job.backup, "m") == Ok(Afterwards(job, rows))
              && Afterwards(job, rows).Planned(later)
  {
    var one := Page("t", 1, 7, "sha", "1.webp", 9, true, false);
    var two := Page("t", 2, 7, "sha", "2.webp", 9, true, false);
    var pages := map[PageKey("t", 1) := one, PageKey("t", 2) := two];
    var journal := Journal("t", 7, "t", 7, map[2 := Replacement(1, "sha")]);
    var row := HashRow("t", 7, 1, 0, "sha", "hashes");
    job := Job(Tables(map["m" := Merge(true, journal)], map["t" := Artifact(7)], pages, map[]), map[row.Key() := row],
        journal, 7);
    rows := [row];
    assert job.Addition(one, 0) == Some(row);
    SchemaPlanCommits(job, "m", rows);
    assert FeedsItself(job, two, 0);
    SecondAddition(job, rows, two, 0);
    later := Afterwards(job, rows).Addition(two, 0).value;
    NeverOverwrites(job.live.cache, rows);
  }
}
