/**
 * `download_images`: every URL of a chapter is fetched in order and its page is written to
 * the file named after its position in the chapter folder. A page is written when its
 * answer is 200, so that its file is opened, even if the stream raises afterwards; the file
 * then keeps the bytes received so far. A page is not written when the request raises
 * before any file is opened or the answer has another status.
 * The network is an oracle from (position, URL) to the fetch outcome. The outcome
 * lemmas hold for any injective naming of positions; the script's naming is
 * `Naming.PageName` (`01.jpg`, `02.jpg`, ...), which `PageNamesInjective` shows qualifies.
 */
module Download {
  import opened Naming

  type Bytes = seq<bv8>

  /** A directory as its components: `os.path.join` without separator details. */
  type Dir = seq<string>

  /** A file: the directory it is in and its name. */
  datatype FilePath = FilePath(dir: Dir, name: string)

  datatype FileSystem = FileSystem(dirs: set<Dir>, files: map<FilePath, Bytes>)

  /** What one `requests.get(img_url, stream=True)` and the writes after it come to. */
  datatype FetchResult =
    | Raised                         // the request raised before any file was opened
    | Status(code: int, body: Bytes) // the server answered; the body is streamed in full
    | Interrupted(received: Bytes)   // status 200, then the stream raised after `received`

  /** The network: the outcome of fetching the URL at a given position. */
  type Fetcher = (nat, string) -> FetchResult

  /** How the file of each position is named. */
  type Namer = nat -> string

  /** The file is opened (and so created or truncated) exactly when the status is 200. */
  predicate Writes(r: FetchResult) {
    (r.Status? && r.code == 200) || r.Interrupted?
  }

  /** The bytes the opened file holds once the `with` block is left. */
  function Content(r: FetchResult): Bytes
    requires Writes(r)
  {
    if r.Status? then r.body else r.received
  }

  ghost predicate Injective(name: Namer) {
    forall i, j :: name(i) == name(j) ==> i == j
  }

  /** The script's page names never collide. */
  lemma PageNamesInjective()
    ensures Injective(PageName)
  {
    forall i, j | PageName(i) == PageName(j)
      ensures i == j
    {
      PageNameInjective(i, j);
    }
  }

  function PagePath(folder: Dir, name: Namer, i: nat): FilePath {
    FilePath(folder, name(i))
  }

  /** The paths of the first `n` pages of a folder. */
  function PagePaths(folder: Dir, name: Namer, n: nat): set<FilePath> {
    set i | 0 <= i < n :: PagePath(folder, name, i)
  }

  /** The paths the download writes: those of the positions whose answer opened the file. */
  function WrittenPaths(folder: Dir, name: Namer, links: seq<string>, fetch: Fetcher): set<FilePath> {
    set i | 0 <= i < |links| && Writes(fetch(i, links[i])) :: PagePath(folder, name, i)
  }

  /** A position's path is written exactly when that position's own answer opened the file. */
  lemma WrittenIff(folder: Dir, name: Namer, links: seq<string>, fetch: Fetcher, j: nat)
    requires Injective(name) && j < |links|
    ensures PagePath(folder, name, j) in WrittenPaths(folder, name, links, fetch) <==>
            Writes(fetch(j, links[j]))
  {
    if PagePath(folder, name, j) in WrittenPaths(folder, name, links, fetch) {
      var i :| 0 <= i < |links| && Writes(fetch(i, links[i])) &&
               PagePath(folder, name, i) == PagePath(folder, name, j);
      assert name(i) == name(j);
    }
  }

  /** The first `n` pages of a folder are the first `n - 1` and page `n - 1`. */
  lemma PagePathsStep(folder: Dir, name: Namer, n: nat)
    requires n > 0
    ensures PagePaths(folder, name, n) == PagePaths(folder, name, n - 1) + {PagePath(folder, name, n - 1)}
  {
    forall q | q in PagePaths(folder, name, n)
      ensures q in PagePaths(folder, name, n - 1) + {PagePath(folder, name, n - 1)}
    {
      var i :| 0 <= i < n && q == PagePath(folder, name, i);
      if i < n - 1 {
        assert q in PagePaths(folder, name, n - 1);
      }
    }
  }

  /** A folder with `n` pages holds `n` distinct page paths. */
  lemma {:induction false} PagePathsCount(folder: Dir, name: Namer, n: nat)
    requires Injective(name)
    ensures |PagePaths(folder, name, n)| == n
  {
    if n > 0 {
      PagePathsCount(folder, name, n - 1);
      PagePathsStep(folder, name, n);
      assert PagePath(folder, name, n - 1) !in PagePaths(folder, name, n - 1);
    }
  }

  /**
   * The paths written by a download are those of its prefix, plus the last page when its
   * answer opened the file.
   */
  lemma WrittenPathsStep(folder: Dir, name: Namer, links: seq<string>, fetch: Fetcher)
    requires |links| > 0
    ensures var n := |links| - 1;
            WrittenPaths(folder, name, links, fetch) ==
              WrittenPaths(folder, name, links[..n], fetch) +
              (if Writes(fetch(n, links[n])) then {PagePath(folder, name, n)} else {})
  {
    var n := |links| - 1;
    var pre := links[..n];
    assert forall i :: 0 <= i < n ==> pre[i] == links[i];
    forall q | q in WrittenPaths(folder, name, links, fetch)
      ensures q in WrittenPaths(folder, name, pre, fetch) ||
              (Writes(fetch(n, links[n])) && q == PagePath(folder, name, n))
    {
      var i :| 0 <= i < |links| && Writes(fetch(i, links[i])) && q == PagePath(folder, name, i);
      if i < n {
        assert q in WrittenPaths(folder, name, pre, fetch);
      }
    }
  }

  /**
   * The file system after creating `folder` and downloading `links` into it, one fetch per
   * position, in order: an answer that opens the file creates or overwrites its page with
   * the bytes received, any other outcome leaves the file system as it was.
   */
  function Downloaded(fs: FileSystem, folder: Dir, name: Namer, links: seq<string>, fetch: Fetcher)
    : (r: FileSystem)
    ensures r.dirs == fs.dirs + {folder}
    decreases |links|
  {
    if |links| == 0 then FileSystem(fs.dirs + {folder}, fs.files)
    else
      var i := |links| - 1;
      var before := Downloaded(fs, folder, name, links[..i], fetch);
      var res := fetch(i, links[i]);
      if Writes(res) then before.(files := before.files[PagePath(folder, name, i) := Content(res)])
      else before
  }

  /**
   * The outcome of a download: the files written are exactly the paths of the positions
   * whose answer opened the file, each holding the bytes received, and every other file is
   * left as it was.
   */
  lemma {:induction false} DownloadOutcome(fs: FileSystem, folder: Dir, name: Namer,
                                           links: seq<string>, fetch: Fetcher)
    requires Injective(name)
    ensures var r := Downloaded(fs, folder, name, links, fetch);
            && r.files.Keys == fs.files.Keys + WrittenPaths(folder, name, links, fetch)
            && (forall i :: 0 <= i < |links| && Writes(fetch(i, links[i])) ==>
                  r.files[PagePath(folder, name, i)] == Content(fetch(i, links[i])))
            && (forall p :: p in fs.files && p !in WrittenPaths(folder, name, links, fetch) ==>
                  r.files[p] == fs.files[p])
    decreases |links|
  {
    if |links| > 0 {
      var n := |links| - 1;
      var pre := links[..n];
      DownloadOutcome(fs, folder, name, pre, fetch);
      WrittenPathsStep(folder, name, links, fetch);
      assert forall i :: 0 <= i < n ==> pre[i] == links[i];
    }
  }

  /** Two file systems hold the same files, with the same contents, everywhere except at `q`. */
  ghost predicate AgreeExcept(a: map<FilePath, Bytes>, b: map<FilePath, Bytes>, q: FilePath) {
    forall p :: p != q ==> (p in a <==> p in b) && (p in a ==> a[p] == b[p])
  }

  /**
   * The outcome at one position changes neither the name nor the presence of any other page:
   * two downloads whose fetches differ only at position `j` agree on every path but `j`'s.
   */
  lemma {:induction false} FailureIsolated(fs: FileSystem, folder: Dir, name: Namer, links: seq<string>,
                                           fetch1: Fetcher, fetch2: Fetcher, j: nat)
    requires forall i :: 0 <= i < |links| && i != j ==> fetch1(i, links[i]) == fetch2(i, links[i])
    ensures AgreeExcept(Downloaded(fs, folder, name, links, fetch1).files,
                        Downloaded(fs, folder, name, links, fetch2).files, PagePath(folder, name, j))
    decreases |links|
  {
    if |links| > 0 {
      var n := |links| - 1;
      var pre := links[..n];
      assert forall i :: 0 <= i < n ==> pre[i] == links[i];
      FailureIsolated(fs, folder, name, pre, fetch1, fetch2, j);
      var b1 := Downloaded(fs, folder, name, pre, fetch1);
      var b2 := Downloaded(fs, folder, name, pre, fetch2);
      var last := PagePath(folder, name, n);
      var res1 := fetch1(n, links[n]);
      var res2 := fetch2(n, links[n]);
      if n == j {
        assert AgreeExcept(b1.files, b2.files, last);
      } else {
        assert res1 == res2;
      }
    }
  }

  /** A download touches no file outside its own folder. */
  lemma {:induction false} DownloadStaysInFolder(fs: FileSystem, folder: Dir, name: Namer,
                                                 links: seq<string>, fetch: Fetcher)
    ensures var r := Downloaded(fs, folder, name, links, fetch);
            forall p: FilePath :: p.dir != folder ==>
              (p in r.files <==> p in fs.files) && (p in fs.files ==> r.files[p] == fs.files[p])
    decreases |links|
  {
    if |links| > 0 {
      DownloadStaysInFolder(fs, folder, name, links[..|links| - 1], fetch);
    }
  }

  /** When every answer opens its file, the folder gains exactly one distinct page per URL. */
  lemma AllSucceed(fs: FileSystem, folder: Dir, name: Namer, links: seq<string>, fetch: Fetcher)
    requires Injective(name)
    requires forall i :: 0 <= i < |links| ==> Writes(fetch(i, links[i]))
    ensures Downloaded(fs, folder, name, links, fetch).files.Keys ==
            fs.files.Keys + PagePaths(folder, name, |links|)
    ensures |PagePaths(folder, name, |links|)| == |links|
  {
    DownloadOutcome(fs, folder, name, links, fetch);
    assert WrittenPaths(folder, name, links, fetch) == PagePaths(folder, name, |links|);
    PagePathsCount(folder, name, |links|);
  }

  /** The files of one directory. */
  function FilesIn(files: map<FilePath, Bytes>, folder: Dir): set<FilePath> {
    set p | p in files && p.dir == folder
  }

  /**
   * A three-page chapter whose second fetch raises before any file is opened or answers a
   * status other than 200, downloaded into an empty folder, leaves there exactly the pages
   * of the first and the third position.
   */
  lemma SecondOfThreeFails(fs: FileSystem, folder: Dir, name: Namer, links: seq<string>, fetch: Fetcher)
    requires Injective(name)
    requires |links| == 3 && FilesIn(fs.files, folder) == {}
    requires Writes(fetch(0, links[0])) && !Writes(fetch(1, links[1])) && Writes(fetch(2, links[2]))
    ensures FilesIn(Downloaded(fs, folder, name, links, fetch).files, folder) ==
            {FilePath(folder, name(0)), FilePath(folder, name(2))}
  {
    DownloadOutcome(fs, folder, name, links, fetch);
    var r := Downloaded(fs, folder, name, links, fetch);
    var w := WrittenPaths(folder, name, links, fetch);
    assert w == {PagePath(folder, name, 0), PagePath(folder, name, 2)} by {
      forall q | q in w
        ensures q == PagePath(folder, name, 0) || q == PagePath(folder, name, 2)
      {
        var i :| 0 <= i < 3 && Writes(fetch(i, links[i])) && q == PagePath(folder, name, i);
        assert i != 1;
      }
    }
    forall q | q in FilesIn(r.files, folder)
      ensures q in w
    {
      assert q !in FilesIn(fs.files, folder) && q.dir == folder;
    }
  }

  /** With the script's names, those two pages are `01.jpg` and `03.jpg`. */
  lemma SecondOfThreeFailsNames(fs: FileSystem, folder: Dir, links: seq<string>, fetch: Fetcher)
    requires |links| == 3 && FilesIn(fs.files, folder) == {}
    requires Writes(fetch(0, links[0])) && !Writes(fetch(1, links[1])) && Writes(fetch(2, links[2]))
    ensures FilesIn(Downloaded(fs, folder, PageName, links, fetch).files, folder) ==
            {FilePath(folder, "01.jpg"), FilePath(folder, "03.jpg")}
  {
    PageNamesInjective();
    SecondOfThreeFails(fs, folder, PageName, links, fetch);
    PageNameExamples();
  }

  /**
   * A three-page chapter whose second answer is 200 but whose stream then raises keeps a
   * truncated second page: the file opened for it holds the bytes received before the error.
   */
  lemma SecondOfThreeInterrupted(fs: FileSystem, folder: Dir, name: Namer, links: seq<string>,
                                 fetch: Fetcher, received: Bytes)
    requires Injective(name)
    requires |links| == 3 && fetch(1, links[1]) == Interrupted(received)
    ensures var r := Downloaded(fs, folder, name, links, fetch);
            FilePath(folder, name(1)) in r.files && r.files[FilePath(folder, name(1))] == received
  {
    DownloadOutcome(fs, folder, name, links, fetch);
    WrittenIff(folder, name, links, fetch, 1);
  }

  /** `download_images`: create the folder, then fetch each page in order and write it as `NN.jpg`. */
  method DownloadImages(fs: FileSystem, folder: Dir, links: seq<string>, fetch: Fetcher)
    returns (out: FileSystem)
    ensures out == Downloaded(fs, folder, PageName, links, fetch)
    ensures out.dirs == fs.dirs + {folder}
    ensures out.files.Keys == fs.files.Keys + WrittenPaths(folder, PageName, links, fetch)
    ensures forall i :: 0 <= i < |links| && Writes(fetch(i, links[i])) ==>
              out.files[FilePath(folder, PageName(i))] == Content(fetch(i, links[i]))
    ensures forall p :: p in fs.files && p !in WrittenPaths(folder, PageName, links, fetch) ==>
              out.files[p] == fs.files[p]
  {
    out := FileSystem(fs.dirs + {folder}, fs.files);
    var i := 0;
    while i < |links|
      invariant 0 <= i <= |links|
      invariant out == Downloaded(fs, folder, PageName, links[..i], fetch)
    {
      assert links[..i + 1][..i] == links[..i];
      var res := fetch(i, links[i]);
      if Writes(res) {
        out := out.(files := out.files[FilePath(folder, PageName(i)) := Content(res)]);
      }
      i := i + 1;
    }
    assert links[..i] == links;
    PageNamesInjective();
    DownloadOutcome(fs, folder, PageName, links, fetch);
  }
}
