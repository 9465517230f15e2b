// The video list: the finished `.mp4` files of a directory listing,
// sorted newest-first or largest-first by the nested exchange loops the
// server runs over the list in place.

module Videos {
  import opened Wrappers
  import opened Text
  import opened Listing

  /** One entry of the video list. */
  datatype VideoInfo = VideoInfo(name: string, size: int, createdAt: int)

  /** strings.ToLower on one character, for the ASCII letters. */
  function LowerChar(c: char): char
  {
    if 'A' <= c <= 'Z' then (c as int + 32) as char else c
  }

  /** strings.ToLower, character by character. */
  function ToLower(s: string): string
  {
    seq(|s|, k requires 0 <= k < |s| => LowerChar(s[k]))
  }

  /**
   * What lowering is for: a name ends in `.mp4` once lowered exactly when
   * its last four characters are `.`, `m` or `M`, `p` or `P`, and `4`. No
   * character other than those lowers to `.`, `m`, `p` or `4`.
   */
  lemma Mp4Suffix(name: string)
    ensures HasSuffix(ToLower(name), ".mp4") <==>
      |name| >= 4 && name[|name| - 4] == '.' && (name[|name| - 3] == 'm' || name[|name| - 3] == 'M')
      && (name[|name| - 2] == 'p' || name[|name| - 2] == 'P') && name[|name| - 1] == '4'
  {
    var n := |name|;
    if n >= 4 {
      var t := ToLower(name)[n - 4..];
      assert t == [LowerChar(name[n - 4]), LowerChar(name[n - 3]), LowerChar(name[n - 2]), LowerChar(name[n - 1])];
    }
  }

  /** A finished video: ends in `.mp4` in any letter case and carries no `.mp4.` suffix. */
  predicate IsVideoName(name: string) {
    HasSuffix(ToLower(name), ".mp4") && !Contains(name, ".mp4.")
  }

  /** An entry that makes it into the list: a plain file with a video name whose metadata was read. */
  predicate IsListed(e: DirEntry) {
    !e.isDir && IsVideoName(e.name) && e.info.Some?
  }

  function AsVideo(e: DirEntry): (v: VideoInfo)
    requires e.info.Some?
    ensures v.name == e.name && v.size == e.info.value.size && v.createdAt == e.info.value.modTime
  {
    VideoInfo(e.name, e.info.value.size, e.info.value.modTime)
  }

  /** The listed entries as videos, in listing order. */
  function VideoList(entries: seq<DirEntry>): (r: seq<VideoInfo>)
    ensures |r| <= |entries|
    ensures forall k :: 0 <= k < |r| ==> IsVideoName(r[k].name)
  {
    if entries == [] then []
    else
      var e := entries[|entries| - 1];
      VideoList(entries[..|entries| - 1]) + (if IsListed(e) then [AsVideo(e)] else [])
  }

  /** Every listed entry is in the list. */
  lemma {:induction false} VideoListComplete(entries: seq<DirEntry>, k: nat)
    requires k < |entries| && IsListed(entries[k])
    ensures AsVideo(entries[k]) in VideoList(entries)
  {
    var last := |entries| - 1;
    var init := entries[..last];
    VideoListStep(entries, last);
    assert entries[..last + 1] == entries;
    if k == last {
      assert VideoList(entries) == VideoList(init) + [AsVideo(entries[k])];
    } else {
      assert init[k] == entries[k];
      VideoListComplete(init, k);
      assert VideoList(init) <= VideoList(entries);
    }
  }

  /** Every video in the list comes from a listed entry. */
  lemma {:induction false} VideoListSound(entries: seq<DirEntry>, v: VideoInfo)
    requires v in VideoList(entries)
    ensures exists k :: 0 <= k < |entries| && IsListed(entries[k]) && AsVideo(entries[k]) == v
  {
    var last := |entries| - 1;
    VideoListStep(entries, last);
    assert entries[..last + 1] == entries;
    if v in VideoList(entries[..last]) {
      VideoListSound(entries[..last], v);
      var k :| 0 <= k < last && IsListed(entries[..last][k]) && AsVideo(entries[..last][k]) == v;
      assert entries[..last][k] == entries[k];
    }
  }

  lemma VideoListStep(entries: seq<DirEntry>, i: nat)
    requires i < |entries|
    ensures IsListed(entries[i]) ==> VideoList(entries[..i + 1]) == VideoList(entries[..i]) + [AsVideo(entries[i])]
    ensures !IsListed(entries[i]) ==> VideoList(entries[..i + 1]) == VideoList(entries[..i])
  {
    assert entries[..i + 1][..i] == entries[..i];
    assert VideoList(entries[..i]) + [] == VideoList(entries[..i]);
  }

  /** The collecting loop: skips directories, non-videos and entries whose metadata cannot be read. */
  method CollectVideos(entries: seq<DirEntry>) returns (videos: seq<VideoInfo>)
    ensures videos == VideoList(entries)
  {
    videos := [];
    var i := 0;
    while i < |entries|
      invariant 0 <= i <= |entries|
      invariant videos == VideoList(entries[..i])
    {
      var entry := entries[i];
      VideoListStep(entries, i);
      if !entry.isDir {
        var filename := entry.name;
        if HasSuffix(ToLower(filename), ".mp4") && !Contains(filename, ".mp4.") {
          match entry.info {
            case Some(info) =>
              videos := videos + [VideoInfo(filename, info.size, info.modTime)];
            case None =>
          }
        }
      }
      i := i + 1;
    }
    assert entries[..i] == entries;
  }

  // ---------------------------------------------------------------------
  // Sorting
  // ---------------------------------------------------------------------

  datatype SortKey = ByTime | BySize

  function Key(v: VideoInfo, key: SortKey): int {
    match key
    case ByTime => v.createdAt
    case BySize => v.size
  }

  /** Non-increasing by the key: newest or largest first. */
  predicate SortedDesc(s: seq<VideoInfo>, key: SortKey) {
    forall p, q :: 0 <= p < q < |s| ==> Key(s[p], key) >= Key(s[q], key)
  }

  /** Exchanges two elements of the array. */
  method Swap(a: array<VideoInfo>, i: nat, j: nat)
    requires i < j < a.Length
    modifies a
    ensures a[..] == old(a[..])[i := old(a[j])][j := old(a[i])]
    ensures multiset(a[..]) == multiset(old(a[..]))
  {
    a[i], a[j] := a[j], a[i];
  }

  /** Positions below i hold keys no smaller than any later position. */
  predicate Settled(s: seq<VideoInfo>, i: nat, key: SortKey) {
    forall p, q :: 0 <= p < q < |s| && p < i ==> Key(s[p], key) >= Key(s[q], key)
  }

  /** Exchanging two positions at or after i keeps the positions below i settled. */
  lemma SwapKeepsSettled(s: seq<VideoInfo>, i: nat, j: nat, key: SortKey)
    requires i < j < |s| && Settled(s, i, key)
    ensures Settled(s[i := s[j]][j := s[i]], i, key)
  {
    var t := s[i := s[j]][j := s[i]];
    forall p, q | 0 <= p < q < |t| && p < i
      ensures Key(t[p], key) >= Key(t[q], key)
    {
      assert t[p] == s[p];
      if q == i {
        assert t[q] == s[j];
      } else if q == j {
        assert t[q] == s[i];
      } else {
        assert t[q] == s[q];
      }
    }
  }

  /**
   * The nested exchange loops: for each position i, every later element
   * with a greater key is swapped into i, so that i ends up holding the
   * greatest remaining key.
   */
  method ExchangeSort(a: array<VideoInfo>, key: SortKey)
    modifies a
    ensures SortedDesc(a[..], key)
    ensures multiset(a[..]) == multiset(old(a[..]))
  {
    var i := 0;
    while i < a.Length - 1
      invariant 0 <= i <= a.Length
      invariant a.Length > 0 ==> i < a.Length
      invariant multiset(a[..]) == multiset(old(a[..]))
      invariant Settled(a[..], i, key)
    {
      var j := i + 1;
      while j < a.Length
        invariant i + 1 <= j <= a.Length
        invariant multiset(a[..]) == multiset(old(a[..]))
        invariant Settled(a[..], i, key)
        invariant forall q :: i < q < j ==> Key(a[i], key) >= Key(a[q], key)
      {
        if Key(a[i], key) < Key(a[j], key) {
          SwapKeepsSettled(a[..], i, j, key);
          Swap(a, i, j);
        }
        j := j + 1;
      }
      assert Settled(a[..], i + 1, key);
      i := i + 1;
    }
  }

  /**
   * The video list handler: the listed videos, sorted newest-first for
   * `time` (also the default when no key is given), largest-first for
   * `size`, and in listing order for any other key. Sorting only reorders.
   */
  method HandleVideoList(entries: seq<DirEntry>, sortBy: string) returns (videos: seq<VideoInfo>)
    ensures multiset(videos) == multiset(VideoList(entries))
    ensures sortBy == "" || sortBy == "time" ==> SortedDesc(videos, ByTime)
    ensures sortBy == "size" ==> SortedDesc(videos, BySize)
    ensures sortBy != "" && sortBy != "time" && sortBy != "size" ==> videos == VideoList(entries)
  {
    var sortKey := if sortBy == "" then "time" else sortBy;
    var list := CollectVideos(entries);
    var a := new VideoInfo[|list|](k requires 0 <= k < |list| => list[k]);
    assert a[..] == list;
    if sortKey == "time" {
      ExchangeSort(a, ByTime);
    } else if sortKey == "size" {
      ExchangeSort(a, BySize);
    }
    videos := a[..];
  }
}
