/**
 * The script's top-level `while` loop as a state machine. The state is the cursor
 * `(chapter_id, chapter_number)` plus the file system; the API endpoints and the image
 * server are oracles, and the loop is bounded by fuel, the number of iterations allowed.
 */
module Driver {
  import Decimal
  import opened Wrappers
  import opened Naming
  import opened Chapters
  import opened Manifest
  import opened Download

  /** The chapter the script starts from, and the counter of its first folder. */
  const StartChapterId: string := "213255d-4rtrt-4rtrtr-9rtrtrtr"
  const StartNumber: nat := 1

  /** The three JSON endpoints, as oracles from the path or query parameter to the answer. */
  datatype Api = Api(
    manifest: string -> ManifestResponse,  // at-home server endpoint, by chapter id
    metadata: string -> MetaResponse,      // chapter endpoint, by chapter id
    listing: string -> ListingResponse)    // chapter listing, by manga id

  /** The image host: the outcome of fetching page `i`'s URL while downloading a chapter. */
  type ImageServer = (string, nat, string) -> FetchResult

  /** The loop variables `chapter_id` and `chapter_number`. */
  datatype Cursor = Cursor(chapterId: string, chapterNumber: nat)

  /** The three `break`s of an iteration. */
  datatype Cause = NoImages | NoManga | NoNextChapter

  /** Why the loop ended: its guard, one of the `break`s, or the fuel bound. */
  datatype StopReason = NoChapterId | Ended(cause: Cause) | OutOfFuel

  /** What an iteration's API answers decide: stop, or move on to the given chapter id. */
  datatype Step = Stop(cause: Cause) | Next(chapterId: string)

  datatype RunResult = RunResult(visited: seq<Cursor>, fs: FileSystem, reason: StopReason)

  /** `os.path.join(main_folder, f"Chapter_{chapter_number:02d}")`. */
  function ChapterFolder(n: nat): (d: Dir)
    ensures |d| == 2 && d[0] == MainFolder
    ensures |d[1]| >= |FolderPrefix| + 2 && d[1][..|FolderPrefix|] == FolderPrefix && Decimal.IsDigits(d[1][|FolderPrefix|..])
  {
    [MainFolder, ChapterFolderName(n)]
  }

  function Links(api: Api, chapterId: string): seq<string> {
    GetImageLinks(api.manifest(chapterId))
  }

  /**
   * The control part of one iteration (lines 100-117): stop when the manifest yields no
   * URL, when the metadata yields no manga id, or when the listing yields no successor;
   * otherwise continue with the successor, which is never the empty id.
   */
  function NextStep(api: Api, chapterId: string): (s: Step)
    ensures s.Next? ==> s.chapterId != ""
  {
    if Links(api, chapterId) == [] then Stop(NoImages)
    else
      var mangaId := GetChapterData(api.metadata(chapterId)).mangaId;
      if !Truthy(mangaId) then Stop(NoManga)
      else
        var next := GetNextChapter(api.listing(mangaId.value), chapterId);
        if !Truthy(next) then Stop(NoNextChapter) else Next(next.value)
  }

  /**
   * When each iteration stops and where it goes: no images exactly when the manifest answer
   * is not 200 or lists no fragment; no manga exactly when there were images but no truthy
   * manga id; otherwise on to the entry after the first occurrence of the current id in the
   * manga's listing, when that listing answered 200 and the entry exists and is non-empty.
   */
  lemma NextStepSpec(api: Api, chapterId: string)
    ensures var s := NextStep(api, chapterId);
            var manifest := api.manifest(chapterId);
            var meta := api.metadata(chapterId);
            && (s == Stop(NoImages) <==> manifest.status != 200 || manifest.images == [])
            && (s == Stop(NoManga) <==>
                  manifest.status == 200 && manifest.images != [] &&
                  !(meta.status == 200 && Truthy(meta.mangaId)))
            && (s.Next? <==>
                  && manifest.status == 200 && manifest.images != []
                  && meta.status == 200 && Truthy(meta.mangaId)
                  && var listing := api.listing(meta.mangaId.value);
                     && listing.status == 200 && chapterId in listing.ids
                     && IndexOf(listing.ids, chapterId) + 1 < |listing.ids|
                     && listing.ids[IndexOf(listing.ids, chapterId) + 1] != "")
            && (s.Next? ==>
                  var ids := api.listing(meta.mangaId.value).ids;
                  s.chapterId == ids[IndexOf(ids, chapterId) + 1])
  {
  }

  /** The decision of an iteration, from the chapter id alone. */
  type Stepper = string -> Step

  /** The script's decision: `NextStep` against the given endpoints. */
  function ScriptStep(api: Api): Stepper {
    (chapterId: string) => NextStep(api, chapterId)
  }

  /** What one iteration does to the file system, given the iteration's cursor. */
  type Effector = (Cursor, FileSystem) -> FileSystem

  /** The file-system part of one iteration (lines 97-102): download into the chapter folder. */
  function ChapterDownload(api: Api, image: ImageServer): (effect: Effector)
    ensures forall c: Cursor, fs: FileSystem {:trigger effect(c, fs)} ::
              Links(api, c.chapterId) == [] ==> effect(c, fs) == fs
    ensures forall c: Cursor, fs: FileSystem {:trigger effect(c, fs)} ::
              Links(api, c.chapterId) != [] ==> ChapterFolder(c.chapterNumber) in effect(c, fs).dirs
  {
    (c: Cursor, fs: FileSystem) =>
      var links := Links(api, c.chapterId);
      if links == [] then fs
      else Downloaded(fs, ChapterFolder(c.chapterNumber), PageName, links,
                      (i: nat, url: string) => image(c.chapterId, i, url))
  }

  /**
   * The loop from cursor `c` with at most `fuel` iterations, each applying `effect` and then
   * `step`: the cursors of the iterations that ran, the final file system, and why the loop
   * ended.
   */
  function Run(step: Stepper, effect: Effector, c: Cursor, fs: FileSystem, fuel: nat): (r: RunResult)
    ensures |r.visited| <= fuel
    ensures c.chapterId == "" ==> r == RunResult([], fs, NoChapterId)
    ensures r.reason == OutOfFuel ==> |r.visited| == fuel
    ensures c.chapterId != "" && fuel > 0 ==> |r.visited| >= 1 && r.visited[0] == c
    decreases fuel
  {
    if c.chapterId == "" then RunResult([], fs, NoChapterId)
    else if fuel == 0 then RunResult([], fs, OutOfFuel)
    else
      var fs' := effect(c, fs);
      match step(c.chapterId)
      case Stop(cause) => RunResult([c], fs', Ended(cause))
      case Next(id) =>
        var rest := Run(step, effect, Cursor(id, c.chapterNumber + 1), fs', fuel - 1);
        RunResult([c] + rest.visited, rest.fs, rest.reason)
  }

  /** The whole script: create the main folder, then loop from the start chapter with counter 1. */
  function Program(api: Api, image: ImageServer, fs: FileSystem, fuel: nat): (r: RunResult)
    ensures |r.visited| <= fuel && r.reason != NoChapterId
    ensures fuel > 0 ==> |r.visited| >= 1 && r.visited[0] == Cursor(StartChapterId, 1)
  {
    var start := Cursor(StartChapterId, StartNumber);
    var fs0 := fs.(dirs := fs.dirs + {[MainFolder]});
    ScriptStepNonEmpty(api);
    RunFollowsSteps(ScriptStep(api), ChapterDownload(api, image), start, fs0, fuel);
    Run(ScriptStep(api), ChapterDownload(api, image), start, fs0, fuel)
  }

  /** The folders of the iterations that ran. */
  function Folders(visited: seq<Cursor>): set<Dir> {
    if visited == [] then {} else {ChapterFolder(visited[0].chapterNumber)} + Folders(visited[1..])
  }

  /** The counters of `visited` run `start`, `start + 1`, `start + 2`, ... */
  predicate CountsFrom(visited: seq<Cursor>, start: nat) {
    forall k :: 0 <= k < |visited| ==> visited[k].chapterNumber == start + k
  }

  /** The counter grows by exactly one per iteration. */
  lemma {:induction false} RunCounter(step: Stepper, effect: Effector, c: Cursor, fs: FileSystem, fuel: nat)
    ensures CountsFrom(Run(step, effect, c, fs, fuel).visited, c.chapterNumber)
    decreases fuel
  {
    if c.chapterId != "" && fuel > 0 && step(c.chapterId).Next? {
      var next := Cursor(step(c.chapterId).chapterId, c.chapterNumber + 1);
      RunCounter(step, effect, next, effect(c, fs), fuel - 1);
      var rest := Run(step, effect, next, effect(c, fs), fuel - 1);
      var r := Run(step, effect, c, fs, fuel);
      assert r.visited == [c] + rest.visited;
      forall k | 0 < k < |r.visited|
        ensures r.visited[k].chapterNumber == c.chapterNumber + k
      {
        assert r.visited[k] == rest.visited[k - 1];
      }
    }
  }

  /** The step never moves to the empty id. */
  ghost predicate NonEmptyTargets(step: Stepper) {
    forall id :: step(id).Next? ==> step(id).chapterId != ""
  }

  /** The script never moves to the empty id (`if not next_chapter_id: break`). */
  lemma ScriptStepNonEmpty(api: Api)
    ensures NonEmptyTargets(ScriptStep(api))
  {
  }

  /**
   * Each iteration moves to the successor the step gives, and the last one stops for the
   * reason the step gives, unless the fuel ran out first. When the step never targets the
   * empty id, the loop guard fails only at the start.
   */
  lemma {:induction false} RunFollowsSteps(step: Stepper, effect: Effector, c: Cursor, fs: FileSystem, fuel: nat)
    ensures var r := Run(step, effect, c, fs, fuel);
            && (forall k :: 0 <= k < |r.visited| - 1 ==>
                  step(r.visited[k].chapterId) == Next(r.visited[k + 1].chapterId))
            && (r.reason.Ended? ==>
                  |r.visited| > 0 && step(r.visited[|r.visited| - 1].chapterId) == Stop(r.reason.cause))
    ensures NonEmptyTargets(step) ==>
              (Run(step, effect, c, fs, fuel).reason == NoChapterId <==> c.chapterId == "")
    decreases fuel
  {
    if c.chapterId != "" && fuel > 0 && step(c.chapterId).Next? {
      var next := Cursor(step(c.chapterId).chapterId, c.chapterNumber + 1);
      RunFollowsSteps(step, effect, next, effect(c, fs), fuel - 1);
      var rest := Run(step, effect, next, effect(c, fs), fuel - 1);
      var r := Run(step, effect, c, fs, fuel);
      assert r.visited == [c] + rest.visited;
      forall k | 0 < k < |r.visited|
        ensures r.visited[k] == rest.visited[k - 1]
      {
      }
    }
  }

  /**
   * What the downloads did never steers the traversal: the chapters visited and the reason
   * to stop are the same whatever each iteration writes, and whatever was on disk before.
   */
  lemma {:induction false} RunIgnoresDownloads(step: Stepper, effect1: Effector, effect2: Effector,
                                               c: Cursor, fs1: FileSystem, fs2: FileSystem, fuel: nat)
    ensures Run(step, effect1, c, fs1, fuel).visited == Run(step, effect2, c, fs2, fuel).visited
    ensures Run(step, effect1, c, fs1, fuel).reason == Run(step, effect2, c, fs2, fuel).reason
    decreases fuel
  {
    if c.chapterId != "" && fuel > 0 && step(c.chapterId).Next? {
      var next := Cursor(step(c.chapterId).chapterId, c.chapterNumber + 1);
      RunIgnoresDownloads(step, effect1, effect2, next, effect1(c, fs1), effect2(c, fs2), fuel - 1);
    }
  }

  /** A run that stopped on its own is not changed by more fuel. */
  lemma {:induction false} RunFuelEnough(step: Stepper, effect: Effector, c: Cursor, fs: FileSystem,
                                         fuel: nat, more: nat)
    requires Run(step, effect, c, fs, fuel).reason != OutOfFuel
    requires fuel <= more
    ensures Run(step, effect, c, fs, more) == Run(step, effect, c, fs, fuel)
    decreases fuel
  {
    if c.chapterId != "" && fuel > 0 && step(c.chapterId).Next? {
      var next := Cursor(step(c.chapterId).chapterId, c.chapterNumber + 1);
      RunFuelEnough(step, effect, next, effect(c, fs), fuel - 1, more - 1);
    }
  }

  /** An empty manifest ends the script's run at once, before any folder or file is created. */
  lemma EmptyManifestStops(api: Api, image: ImageServer, c: Cursor, fs: FileSystem, fuel: nat)
    requires c.chapterId != "" && fuel > 0
    requires Links(api, c.chapterId) == []
    ensures Run(ScriptStep(api), ChapterDownload(api, image), c, fs, fuel) == RunResult([c], fs, Ended(NoImages))
  {
  }

  /** The effect of an iteration keeps every existing directory. */
  ghost predicate KeepsDirs(effect: Effector) {
    forall c: Cursor, fs: FileSystem :: fs.dirs <= effect(c, fs).dirs
  }

  /** `b` has the same files as `a` outside the directories `dirs`. */
  ghost predicate SameOutside(a: FileSystem, b: FileSystem, dirs: set<Dir>) {
    forall p: FilePath :: p.dir !in dirs ==>
      (p in b.files <==> p in a.files) && (p in a.files ==> b.files[p] == a.files[p])
  }

  /** Agreement outside two sets of directories chains to agreement outside their union. */
  lemma SameOutsideChain(a: FileSystem, b: FileSystem, c: FileSystem, d1: set<Dir>, d2: set<Dir>)
    requires SameOutside(a, b, d1) && SameOutside(b, c, d2)
    ensures SameOutside(a, c, d1 + d2)
  {
  }

  /** The iteration at cursor `c` touches only files in its chapter folder. */
  ghost predicate ConfinedStep(effect: Effector, c: Cursor, fs: FileSystem) {
    SameOutside(fs, effect(c, fs), {ChapterFolder(c.chapterNumber)})
  }

  /** Every iteration touches only files in its chapter folder. */
  ghost predicate Confined(effect: Effector) {
    forall c: Cursor, fs: FileSystem :: ConfinedStep(effect, c, fs)
  }

  /** The script's download keeps every directory and is confined to the chapter folder. */
  lemma ChapterDownloadConfined(api: Api, image: ImageServer)
    ensures KeepsDirs(ChapterDownload(api, image))
    ensures Confined(ChapterDownload(api, image))
  {
    var effect := ChapterDownload(api, image);
    forall c: Cursor, fs: FileSystem
      ensures ConfinedStep(effect, c, fs)
    {
      var links := Links(api, c.chapterId);
      if links != [] {
        DownloadStaysInFolder(fs, ChapterFolder(c.chapterNumber), PageName, links,
                              (i: nat, url: string) => image(c.chapterId, i, url));
      }
    }
  }

  /** With an effect that keeps directories, so does the run. */
  lemma {:induction false} RunKeepsDirs(step: Stepper, effect: Effector, c: Cursor, fs: FileSystem, fuel: nat)
    requires KeepsDirs(effect)
    ensures fs.dirs <= Run(step, effect, c, fs, fuel).fs.dirs
    decreases fuel
  {
    if c.chapterId != "" && fuel > 0 {
      assert fs.dirs <= effect(c, fs).dirs;
      if step(c.chapterId).Next? {
        var next := Cursor(step(c.chapterId).chapterId, c.chapterNumber + 1);
        RunKeepsDirs(step, effect, next, effect(c, fs), fuel - 1);
      }
    }
  }

  /** One iteration that moves on: its cursor, then the rest of the run from the successor. */
  lemma RunUnfoldNext(step: Stepper, effect: Effector, c: Cursor, fs: FileSystem, fuel: nat)
    requires c.chapterId != "" && fuel > 0 && step(c.chapterId).Next?
    ensures var rest := Run(step, effect, Cursor(step(c.chapterId).chapterId, c.chapterNumber + 1),
                            effect(c, fs), fuel - 1);
            Run(step, effect, c, fs, fuel) == RunResult([c] + rest.visited, rest.fs, rest.reason)
  {
  }

  /** The folders of `[c] + v` are the folder of `c` and those of `v`. */
  lemma FoldersCons(c: Cursor, v: seq<Cursor>)
    ensures Folders([c] + v) == {ChapterFolder(c.chapterNumber)} + Folders(v)
  {
    assert ([c] + v)[1..] == v;
  }

  /** A confined effect, at one cursor. */
  lemma ConfinedAt(effect: Effector, c: Cursor, fs: FileSystem)
    requires Confined(effect)
    ensures SameOutside(fs, effect(c, fs), {ChapterFolder(c.chapterNumber)})
  {
    assert ConfinedStep(effect, c, fs);
  }

  /** With a confined effect, the run leaves every file outside its iterations' folders as it was. */
  lemma {:induction false} RunFrame(step: Stepper, effect: Effector, c: Cursor, fs: FileSystem, fuel: nat)
    requires Confined(effect)
    ensures var r := Run(step, effect, c, fs, fuel);
            SameOutside(fs, r.fs, Folders(r.visited))
    decreases fuel
  {
    if c.chapterId != "" && fuel > 0 {
      var fs' := effect(c, fs);
      var here := {ChapterFolder(c.chapterNumber)};
      ConfinedAt(effect, c, fs);
      if step(c.chapterId).Next? {
        var next := Cursor(step(c.chapterId).chapterId, c.chapterNumber + 1);
        RunFrame(step, effect, next, fs', fuel - 1);
        var rest := Run(step, effect, next, fs', fuel - 1);
        SameOutsideChain(fs, fs', rest.fs, here, Folders(rest.visited));
        RunUnfoldNext(step, effect, c, fs, fuel);
        FoldersCons(c, rest.visited);
      } else {
        FoldersCons(c, []);
      }
    }
  }

  /** The step closes a cycle: every id in `ids` is non-empty and moves to an id in `ids`. */
  ghost predicate Cyclic(step: Stepper, ids: set<string>) {
    forall id {:trigger step(id)} :: id in ids ==>
      id != "" && step(id).Next? && step(id).chapterId in ids
  }

  /** On a cycle of successors the loop never stops by itself: only the fuel bound ends it. */
  lemma {:induction false} CycleNeverStops(step: Stepper, effect: Effector, ids: set<string>,
                                           c: Cursor, fs: FileSystem, fuel: nat)
    requires Cyclic(step, ids) && c.chapterId in ids
    ensures Run(step, effect, c, fs, fuel).reason == OutOfFuel
    ensures |Run(step, effect, c, fs, fuel).visited| == fuel
    decreases fuel
  {
    var s := step(c.chapterId);
    if fuel > 0 {
      var next := Cursor(s.chapterId, c.chapterNumber + 1);
      CycleNeverStops(step, effect, ids, next, effect(c, fs), fuel - 1);
    }
  }

  /** No id occurs twice in the listing. */
  predicate Distinct(ids: seq<string>) {
    forall i, j :: 0 <= i < j < |ids| ==> ids[i] != ids[j]
  }

  /** Iterations a run from `id` needs at most on a fixed listing: the entries from its position on. */
  function Budget(ids: seq<string>, id: string): nat {
    if id in ids then |ids| - IndexOf(ids, id) else 1
  }

  /** Under one manga with a duplicate-free listing, a step moves one entry further along it. */
  lemma FixedListingStep(api: Api, mangaId: string, id: string)
    requires forall id {:trigger api.metadata(id)} ::
               api.metadata(id).mangaId.Some? ==> api.metadata(id).mangaId.value == mangaId
    requires Distinct(api.listing(mangaId).ids)
    requires NextStep(api, id).Next?
    ensures var ids := api.listing(mangaId).ids;
            var next := NextStep(api, id).chapterId;
            id in ids && next in ids && IndexOf(ids, next) == IndexOf(ids, id) + 1
  {
    NextStepSpec(api, id);
    var ids := api.listing(mangaId).ids;
    assert api.metadata(id).mangaId.value == mangaId;
    var k := IndexOf(ids, id);
    assert IndexOf(ids, ids[k + 1]) == k + 1;
  }

  /** Every move of the step goes from an id of `ids` to the entry right after it. */
  ghost predicate Advances(step: Stepper, ids: seq<string>) {
    forall id {:trigger step(id)} :: step(id).Next? ==>
      id in ids && step(id).chapterId in ids &&
      IndexOf(ids, step(id).chapterId) == IndexOf(ids, id) + 1
  }

  /** A step that always advances along `ids` stops the loop within the entries left. */
  lemma {:induction false} AdvancingStops(step: Stepper, effect: Effector, ids: seq<string>,
                                          c: Cursor, fs: FileSystem, fuel: nat)
    requires Advances(step, ids)
    requires fuel >= Budget(ids, c.chapterId)
    ensures Run(step, effect, c, fs, fuel).reason != OutOfFuel
    decreases fuel
  {
    if c.chapterId != "" && step(c.chapterId).Next? {
      var next := Cursor(step(c.chapterId).chapterId, c.chapterNumber + 1);
      AdvancingStops(step, effect, ids, next, effect(c, fs), fuel - 1);
    }
  }

  /**
   * When every chapter's metadata names the same manga and that manga's listing has no
   * duplicate ids, each step moves one entry further along the listing, so the script's loop
   * stops by itself within as many iterations as the listing has entries.
   */
  lemma StopsOnFixedListing(api: Api, effect: Effector, mangaId: string,
                            c: Cursor, fs: FileSystem, fuel: nat)
    requires forall id {:trigger api.metadata(id)} ::
               api.metadata(id).mangaId.Some? ==> api.metadata(id).mangaId.value == mangaId
    requires Distinct(api.listing(mangaId).ids)
    requires fuel >= Budget(api.listing(mangaId).ids, c.chapterId)
    ensures Run(ScriptStep(api), effect, c, fs, fuel).reason != OutOfFuel
  {
    var step := ScriptStep(api);
    forall id | step(id).Next?
      ensures id in api.listing(mangaId).ids && step(id).chapterId in api.listing(mangaId).ids
      ensures IndexOf(api.listing(mangaId).ids, step(id).chapterId) ==
              IndexOf(api.listing(mangaId).ids, id) + 1
    {
      FixedListingStep(api, mangaId, id);
    }
    AdvancingStops(step, effect, api.listing(mangaId).ids, c, fs, fuel);
  }

  /** Every chapter has one page and belongs to manga "m", whose listing is [a, b, a]. */
  function DuplicateListingApi(): Api {
    Api(
      (_: string) => ManifestResponse(200, "https://host", "h", ["1.jpg"]),
      (_: string) => MetaResponse(200, Some("m"), None),
      (_: string) => ListingResponse(200, ["a", "b", "a"]))
  }

  /**
   * A listing that repeats an id makes the script's loop run forever: the first occurrence
   * of "a" is followed by "b", and "b" by the second "a".
   */
  lemma DuplicateListingCycles(effect: Effector, fs: FileSystem, fuel: nat)
    ensures Run(ScriptStep(DuplicateListingApi()), effect, Cursor("a", 1), fs, fuel).reason == OutOfFuel
    ensures |Run(ScriptStep(DuplicateListingApi()), effect, Cursor("a", 1), fs, fuel).visited| == fuel
  {
    var api := DuplicateListingApi();
    var ids := ["a", "b", "a"];
    assert api.listing("m").ids == ids;
    SuccessorFollows(ids, "a", 0);
    SuccessorFollows(ids, "b", 1);
    assert NextStep(api, "a") == Next("b");
    assert NextStep(api, "b") == Next("a");
    CycleNeverStops(ScriptStep(api), effect, {"a", "b"}, Cursor("a", 1), fs, fuel);
  }

  /** Counters `start`, `start + 1`, ... give pairwise distinct chapter folders. */
  lemma FoldersDistinct(visited: seq<Cursor>, start: nat)
    requires CountsFrom(visited, start)
    ensures forall k, l :: 0 <= k < l < |visited| ==>
              ChapterFolder(visited[k].chapterNumber) != ChapterFolder(visited[l].chapterNumber)
  {
    forall k, l | 0 <= k < l < |visited|
      ensures ChapterFolder(visited[k].chapterNumber) != ChapterFolder(visited[l].chapterNumber)
    {
      var m, n := visited[k].chapterNumber, visited[l].chapterNumber;
      assert m == start + k && n == start + l;
      ChapterFolderNameInjective(m, n);
      assert ChapterFolder(m)[1] == ChapterFolderName(m);
    }
  }

  /**
   * The script's run: the iterations count 1, 2, 3, ..., so iteration `k` writes into
   * `Downloaded_Manga/Chapter_{k+1:02d}` and no two iterations share a folder; the main
   * folder exists at the end.
   */
  lemma ProgramFolders(api: Api, image: ImageServer, fs: FileSystem, fuel: nat)
    ensures CountsFrom(Program(api, image, fs, fuel).visited, 1)
    ensures var v := Program(api, image, fs, fuel).visited;
            forall k, l :: 0 <= k < l < |v| ==>
              ChapterFolder(v[k].chapterNumber) != ChapterFolder(v[l].chapterNumber)
    ensures [MainFolder] in Program(api, image, fs, fuel).fs.dirs
  {
    var start := Cursor(StartChapterId, StartNumber);
    var fs0 := fs.(dirs := fs.dirs + {[MainFolder]});
    var step := ScriptStep(api);
    var effect := ChapterDownload(api, image);
    RunCounter(step, effect, start, fs0, fuel);
    FoldersDistinct(Run(step, effect, start, fs0, fuel).visited, 1);
    ChapterDownloadConfined(api, image);
    RunKeepsDirs(step, effect, start, fs0, fuel);
  }
}
