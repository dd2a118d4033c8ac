/** File and folder names derived from counters: `NN.jpg` pages and `Chapter_NN` folders. */
module Naming {
  import opened Decimal

  const PageSuffix: string := ".jpg"
  const FolderPrefix: string := "Chapter_"
  /** The folder every chapter folder is created in. */
  const MainFolder: string := "Downloaded_Manga"

  /** The file name of the page at zero-based position `i`: `f"{i+1:02d}.jpg"`. */
  function PageName(i: nat): (name: string)
    ensures |name| >= 2 + |PageSuffix|
    ensures i < 99 ==> |name| == 2 + |PageSuffix|
    ensures name[|name| - |PageSuffix|..] == PageSuffix
    ensures IsDigits(name[..|name| - |PageSuffix|])
  {
    var digits := Pad2(i + 1);
    assert (digits + PageSuffix)[..|digits|] == digits;
    digits + PageSuffix
  }

  /** The digits of a page name denote the one-based page number. */
  lemma PageNameValue(i: nat)
    ensures var name := PageName(i);
            FromDigits(name[..|name| - |PageSuffix|]) == i + 1
  {
    var name := PageName(i);
    assert name[..|name| - |PageSuffix|] == Pad2(i + 1);
    Pad2Value(i + 1);
  }

  /** The folder name of the chapter with counter `n`: `f"Chapter_{n:02d}"`. */
  function ChapterFolderName(n: nat): (name: string)
    ensures |name| >= |FolderPrefix| + 2
    ensures n < 100 ==> |name| == |FolderPrefix| + 2
    ensures name[..|FolderPrefix|] == FolderPrefix
    ensures IsDigits(name[|FolderPrefix|..])
  {
    var digits := Pad2(n);
    assert (FolderPrefix + digits)[|FolderPrefix|..] == digits;
    FolderPrefix + digits
  }

  /** The digits of a folder name denote the chapter counter. */
  lemma ChapterFolderNameValue(n: nat)
    ensures var name := ChapterFolderName(n);
            FromDigits(name[|FolderPrefix|..]) == n
  {
    var name := ChapterFolderName(n);
    assert name[|FolderPrefix|..] == Pad2(n);
    Pad2Value(n);
  }

  /** Two page positions share a file name only if they are the same position. */
  lemma PageNameInjective(i: nat, j: nat)
    ensures PageName(i) == PageName(j) <==> i == j
  {
    if PageName(i) == PageName(j) {
      var n := PageName(i);
      assert n[..|n| - |PageSuffix|] == Pad2(i + 1);
      assert n[..|n| - |PageSuffix|] == Pad2(j + 1);
      Pad2Injective(i + 1, j + 1);
    }
  }

  /** Two chapter counters share a folder name only if they are equal. */
  lemma ChapterFolderNameInjective(m: nat, n: nat)
    ensures ChapterFolderName(m) == ChapterFolderName(n) <==> m == n
  {
    if ChapterFolderName(m) == ChapterFolderName(n) {
      var f := ChapterFolderName(m);
      ChapterFolderNameValue(m);
      ChapterFolderNameValue(n);
      assert FromDigits(f[|FolderPrefix|..]) == m == n;
    }
  }

  /** The first pages are `01.jpg`, `02.jpg`, ...; page 100 is `100.jpg` (no truncation). */
  lemma PageNameExamples()
    ensures PageName(0) == "01.jpg"
    ensures PageName(2) == "03.jpg"
    ensures PageName(9) == "10.jpg"
    ensures PageName(99) == "100.jpg"
    ensures ChapterFolderName(1) == "Chapter_01"
  {
    assert Pad2(1) == "01" by {
      assert ToDecimal(1) == "1";
    }
    assert Pad2(3) == "03" by {
      assert ToDecimal(3) == "3";
    }
    assert Pad2(10) == "10" by {
      assert ToDecimal(1) == "1";
      assert ToDecimal(10) == ToDecimal(1) + "0";
    }
    assert Pad2(100) == "100" by {
      assert ToDecimal(1) == "1";
      assert ToDecimal(10) == "10" by {
        assert ToDecimal(10) == ToDecimal(1) + "0";
      }
      assert ToDecimal(100) == ToDecimal(10) + "0";
    }
  }
}
