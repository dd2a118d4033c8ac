/**
 * Chapter metadata and the "next chapter" lookup: the pure parts of
 * `get_chapter_data` and `get_next_chapter`.
 */
module Chapters {
  import opened Wrappers
  import opened Decimal

  /** The chapter-metadata endpoint's answer, with the fields the script reads already extracted. */
  datatype MetaResponse = MetaResponse(
    status: int,
    mangaId: Option<string>,       // id of the first relationship whose type is "manga"
    chapterField: Option<string>)  // `attributes["chapter"]`, when the key is present

  /** What `get_chapter_data` returns: `(manga_id, chapter_number)`. */
  datatype ChapterInfo = ChapterInfo(mangaId: Option<string>, number: Option<nat>)

  /** The chapter-listing endpoint's answer: the ids of the listed chapters, in server order. */
  datatype ListingResponse = ListingResponse(status: int, ids: seq<string>)

  /** Parses the chapter attribute: `int(s) if s.isdigit() else 0` (ASCII digits only). */
  function ParseChapterNumber(field: string): (r: nat)
    ensures |field| > 0 && IsDigits(field) ==> r == FromDigits(field)
    ensures !(|field| > 0 && IsDigits(field)) ==> r == 0
    ensures r == 0 <==> !IsDigits(field) || AllZeros(field)
  {
    if |field| > 0 && IsDigits(field) then
      ZeroValue(field);
      FromDigits(field)
    else 0
  }

  /** Parsing reads back every number written in decimal, zero-padded or not. */
  lemma ParseRendered(n: nat)
    ensures ParseChapterNumber(ToDecimal(n)) == n
    ensures ParseChapterNumber(Pad2(n)) == n
  {
    DecimalValue(n);
    Pad2Value(n);
  }

  /** Fractional, signed, blank and empty chapter attributes all parse as 0. */
  lemma ParseExamples()
    ensures ParseChapterNumber("") == 0
    ensures ParseChapterNumber("0") == 0
    ensures ParseChapterNumber("10.5") == 0
    ensures ParseChapterNumber("-3") == 0
    ensures ParseChapterNumber(" 7") == 0
    ensures ParseChapterNumber("007") == 7
  {
    assert !IsDigit('.') && !IsDigit('-') && !IsDigit(' ');
    assert "10.5"[2] == '.';
    assert "-3"[0] == '-';
    assert " 7"[0] == ' ';
    assert "007"[..2] == "00";
    assert "00"[..1] == "0";
  }

  /**
   * `get_chapter_data`: a non-200 answer gives `(None, None)`; otherwise the manga id as found
   * and the parsed chapter attribute, which defaults to "0" when absent.
   */
  function GetChapterData(resp: MetaResponse): (r: ChapterInfo)
    ensures resp.status != 200 ==> r.mangaId.None? && r.number.None?
    ensures resp.status == 200 ==> r.mangaId == resp.mangaId && r.number.Some?
    ensures resp.status == 200 && resp.chapterField.None? ==> r.number == Some(0)
    ensures resp.status == 200 && resp.chapterField.Some? ==>
              r.number == Some(ParseChapterNumber(resp.chapterField.value))
  {
    if resp.status != 200 then ChapterInfo(None, None)
    else ChapterInfo(resp.mangaId, Some(ParseChapterNumber(resp.chapterField.GetOr("0"))))
  }

  /** The position of the first occurrence of `x` in `ids`. */
  function IndexOf(ids: seq<string>, x: string): (k: nat)
    requires x in ids
    ensures k < |ids| && ids[k] == x
    ensures forall j :: 0 <= j < k ==> ids[j] != x
  {
    if ids[0] == x then 0 else 1 + IndexOf(ids[1..], x)
  }

  /** The scan of `get_next_chapter` from position `i` on. */
  function ScanFrom(ids: seq<string>, current: string, i: nat): (r: Option<string>)
    requires i <= |ids|
    ensures r.Some? ==> i + 1 < |ids| && current in ids[i..|ids| - 1] && r.value in ids[i + 1..]
    decreases |ids| - i
  {
    if i == |ids| then None
    else if ids[i] == current && i + 1 < |ids| then Some(ids[i + 1])
    else ScanFrom(ids, current, i + 1)
  }

  /**
   * The scan from `i` answers the entry after the first position `j >= i` that holds
   * `current`, provided that position is not the last one; it answers None when there is no
   * such position.
   */
  lemma {:induction false} ScanFromFirst(ids: seq<string>, current: string, i: nat, j: nat)
    requires i <= j < |ids| && ids[j] == current
    requires forall k :: i <= k < j ==> ids[k] != current
    ensures ScanFrom(ids, current, i) == if j + 1 < |ids| then Some(ids[j + 1]) else None
    decreases j - i
  {
    if i < j {
      ScanFromFirst(ids, current, i + 1, j);
    }
  }

  /** A scan from `i` past which `current` no longer occurs answers None. */
  lemma {:induction false} ScanFromAbsent(ids: seq<string>, current: string, i: nat)
    requires i <= |ids|
    requires forall k :: i <= k < |ids| ==> ids[k] != current
    ensures ScanFrom(ids, current, i) == None
    decreases |ids| - i
  {
    if i < |ids| {
      ScanFromAbsent(ids, current, i + 1);
    }
  }

  /**
   * The successor of `current` in the ordered id list: the id right after its first
   * occurrence; None when `current` is absent or its first occurrence is the last entry.
   */
  function Successor(ids: seq<string>, current: string): (r: Option<string>)
    ensures r.Some? <==> current in ids && IndexOf(ids, current) + 1 < |ids|
    ensures r.Some? ==> r.value == ids[IndexOf(ids, current) + 1]
  {
    if current in ids then
      ScanFromFirst(ids, current, 0, IndexOf(ids, current));
      ScanFrom(ids, current, 0)
    else
      ScanFromAbsent(ids, current, 0);
      ScanFrom(ids, current, 0)
  }

  /** `get_next_chapter`: None on a non-200 answer, otherwise the successor in the listing. */
  function GetNextChapter(resp: ListingResponse, current: string): (r: Option<string>)
    ensures resp.status != 200 ==> r.None?
    ensures r.Some? <==> resp.status == 200 && current in resp.ids &&
                         IndexOf(resp.ids, current) + 1 < |resp.ids|
    ensures r.Some? ==> r.value == resp.ids[IndexOf(resp.ids, current) + 1]
  {
    if resp.status != 200 then None else Successor(resp.ids, current)
  }

  /** Successor is the relation "immediately follows the first occurrence". */
  lemma SuccessorFollows(ids: seq<string>, current: string, k: nat)
    requires k + 1 < |ids| && ids[k] == current
    requires forall j :: 0 <= j < k ==> ids[j] != current
    ensures Successor(ids, current) == Some(ids[k + 1])
  {
    assert IndexOf(ids, current) == k;
  }

  /** With listing [A, B, C]: B is followed by C, and C (the last entry) by nothing. */
  lemma SuccessorExample(a: string, b: string, c: string)
    requires a != b && b != c && a != c
    ensures Successor([a, b, c], b) == Some(c)
    ensures Successor([a, b, c], c) == None
    ensures Successor([a, b, c], a) == Some(b)
  {
    SuccessorFollows([a, b, c], b, 1);
    SuccessorFollows([a, b, c], a, 0);
    assert IndexOf([a, b, c], c) == 2;
  }

  /** With duplicate ids the first occurrence wins, even if a later copy has a different follower. */
  lemma SuccessorFirstMatchWins(a: string, b: string, c: string)
    requires a != b && a != c
    ensures Successor([a, b, a, c], a) == Some(b)
  {
    SuccessorFollows([a, b, a, c], a, 0);
  }
}
