// Removal of a stopped download's partial files: every plain file in the
// download's directory whose name starts with the download's base name and
// carries an extra suffix after `.mp4` (`.part`, `.temp`, ...). Whether a
// file can be stat'ed and removed is an input.

module Cleanup {
  import opened Text
  import opened Wrappers
  import opened Listing

  /** The infix that marks an unfinished download. */
  const PartialInfix := ".mp4."

  /** Whether an entry is a partial file of the download named `baseName`. */
  predicate IsPartialFile(e: DirEntry, baseName: string) {
    !e.isDir && HasPrefix(e.name, baseName) && Contains(e.name, PartialInfix)
  }

  /**
   * The names of the partial files in a listing, in listing order. Every
   * name comes from a selected entry, and there are no more names than
   * entries.
   */
  function PartialFiles(entries: seq<DirEntry>, baseName: string): (r: seq<string>)
    ensures |r| <= |entries|
    ensures forall k :: 0 <= k < |r| ==> HasPrefix(r[k], baseName) && Contains(r[k], PartialInfix)
  {
    if entries == [] then []
    else
      var e := entries[|entries| - 1];
      PartialFiles(entries[..|entries| - 1], baseName) + (if IsPartialFile(e, baseName) then [e.name] else [])
  }

  /** The names among `names` that could be stat'ed and then removed, in order. */
  function Removed(names: seq<string>, statOk: string -> bool, removeOk: string -> bool): (r: seq<string>)
    ensures |r| <= |names|
    ensures forall k :: 0 <= k < |r| ==> statOk(r[k]) && removeOk(r[k])
  {
    if names == [] then []
    else
      var n := names[|names| - 1];
      Removed(names[..|names| - 1], statOk, removeOk) + (if statOk(n) && removeOk(n) then [n] else [])
  }

  /** A name is removed exactly when it is among the names and could be stat'ed and removed. */
  lemma {:induction false} RemovedMembers(names: seq<string>, statOk: string -> bool, removeOk: string -> bool, n: string)
    ensures n in Removed(names, statOk, removeOk) <==> n in names && statOk(n) && removeOk(n)
  {
    if names != [] {
      var init := names[..|names| - 1];
      assert names == init + [names[|names| - 1]];
      RemovedMembers(init, statOk, removeOk, n);
    }
  }

  /** A name is selected exactly when some entry with that name is a partial file. */
  lemma {:induction false} PartialFilesMembers(entries: seq<DirEntry>, baseName: string, n: string)
    ensures n in PartialFiles(entries, baseName) <==>
      exists k :: 0 <= k < |entries| && entries[k].name == n && IsPartialFile(entries[k], baseName)
  {
    if entries != [] {
      var init := entries[..|entries| - 1];
      PartialFilesMembers(init, baseName, n);
      if exists k :: 0 <= k < |init| && init[k].name == n && IsPartialFile(init[k], baseName) {
        var k :| 0 <= k < |init| && init[k].name == n && IsPartialFile(init[k], baseName);
        assert entries[k] == init[k];
      }
      if exists k :: 0 <= k < |entries| && entries[k].name == n && IsPartialFile(entries[k], baseName) {
        var k :| 0 <= k < |entries| && entries[k].name == n && IsPartialFile(entries[k], baseName);
        if k < |init| {
          assert init[k] == entries[k];
        }
      }
    }
  }

  lemma PartialFilesStep(entries: seq<DirEntry>, i: nat, baseName: string)
    requires i < |entries|
    ensures IsPartialFile(entries[i], baseName) ==>
      PartialFiles(entries[..i + 1], baseName) == PartialFiles(entries[..i], baseName) + [entries[i].name]
    ensures !IsPartialFile(entries[i], baseName) ==>
      PartialFiles(entries[..i + 1], baseName) == PartialFiles(entries[..i], baseName)
  {
    assert entries[..i + 1][..i] == entries[..i];
    assert PartialFiles(entries[..i], baseName) + [] == PartialFiles(entries[..i], baseName);
  }

  lemma RemovedStep(names: seq<string>, n: string, statOk: string -> bool, removeOk: string -> bool)
    ensures statOk(n) && removeOk(n) ==>
      Removed(names + [n], statOk, removeOk) == Removed(names, statOk, removeOk) + [n]
    ensures !(statOk(n) && removeOk(n)) ==>
      Removed(names + [n], statOk, removeOk) == Removed(names, statOk, removeOk)
  {
    assert (names + [n])[..|names|] == names;
    assert Removed(names, statOk, removeOk) + [] == Removed(names, statOk, removeOk);
  }

  /**
   * The cleanup loop: walks the listing, removes each partial file that
   * can be stat'ed and removed, and counts the removals.
   */
  method RemovePartialFiles(entries: seq<DirEntry>, baseName: string, statOk: string -> bool, removeOk: string -> bool)
    returns (removed: seq<string>, deletedCount: nat)
    ensures removed == Removed(PartialFiles(entries, baseName), statOk, removeOk)
    ensures deletedCount == |removed|
  {
    removed := [];
    deletedCount := 0;
    var i := 0;
    while i < |entries|
      invariant 0 <= i <= |entries|
      invariant removed == Removed(PartialFiles(entries[..i], baseName), statOk, removeOk)
      invariant deletedCount == |removed|
    {
      var entry := entries[i];
      PartialFilesStep(entries, i, baseName);
      if !entry.isDir {
        var fileName := entry.name;
        if HasPrefix(fileName, baseName) {
          if Contains(fileName, PartialInfix) {
            RemovedStep(PartialFiles(entries[..i], baseName), fileName, statOk, removeOk);
            if statOk(fileName) {
              if removeOk(fileName) {
                removed := removed + [fileName];
                deletedCount := deletedCount + 1;
              }
            }
          }
        }
      }
      i := i + 1;
    }
    assert entries[..i] == entries;
  }

  /** Any file that extends an `.mp4` download's name by a further suffix is selected. */
  lemma ExtraSuffixSelected(baseName: string, tail: string, info: Option<FileInfo>)
    requires HasSuffix(baseName, ".mp4") && tail != [] && tail[0] == '.'
    ensures IsPartialFile(DirEntry(baseName + tail, false, info), baseName)
  {
    var name := baseName + tail;
    assert name[..|baseName|] == baseName;
    assert name[|baseName| - 4..|baseName| + 1] == baseName[|baseName| - 4..] + [tail[0]];
    ContainsAt(name, PartialInfix, |baseName| - 4);
  }

  /** The finished file itself is kept when its name has no extra suffix. */
  lemma FinishedFileKept(baseName: string, info: Option<FileInfo>)
    requires !Contains(baseName, PartialInfix)
    ensures !IsPartialFile(DirEntry(baseName, false, info), baseName)
  {
  }

  lemma VideoNameFacts(baseName: string, other: string)
    requires baseName == "video.mp4" && other == "video2.mp4"
    ensures HasSuffix(baseName, ".mp4") && !Contains(baseName, PartialInfix)
    ensures !HasPrefix(other, baseName)
  {
    assert other[5] != baseName[5];
    VideoNameIsFinished(baseName);
  }

  lemma VideoNameIsFinished(baseName: string)
    requires baseName == "video.mp4"
    ensures !Contains(baseName, PartialInfix)
  {
    NoPartialInfix(baseName);
  }

  /** A name without two dots four places apart has no `.mp4.` in it. */
  lemma NoPartialInfix(s: string)
    requires forall k :: 0 <= k < |s| - 4 ==> !(s[k] == '.' && s[k + 4] == '.')
    ensures !Contains(s, PartialInfix)
  {
    if Contains(s, PartialInfix) {
      var i := IndexFrom(s, PartialInfix, 0).value;
      PartialInfixDots(s, i);
    }
  }

  lemma PartialInfixDots(s: string, i: nat)
    requires HasPrefixAt(s, i, PartialInfix)
    ensures i + 4 < |s| && s[i] == '.' && s[i + 4] == '.'
  {
    assert s[i..i + 5][0] == s[i] && s[i..i + 5][4] == s[i + 4];
  }

  /**
   * For base name `video.mp4` and the files `video.mp4`, `video.mp4.part`,
   * `video.mp4.temp` and `video2.mp4`, exactly the `.part` and `.temp`
   * files are selected.
   */
  lemma CleanupExample(entries: seq<DirEntry>, baseName: string, part: string, temp: string, other: string)
    requires baseName == "video.mp4" && part == baseName + ".part" && temp == baseName + ".temp"
    requires other == "video2.mp4"
    requires entries == [DirEntry(baseName, false, None), DirEntry(part, false, None),
                         DirEntry(temp, false, None), DirEntry(other, false, None)]
    ensures PartialFiles(entries, baseName) == [part, temp]
  {
    VideoNameFacts(baseName, other);
    FinishedFileKept(baseName, None);
    ExtraSuffixSelected(baseName, ".part", None);
    ExtraSuffixSelected(baseName, ".temp", None);
    assert !IsPartialFile(entries[0], baseName) && IsPartialFile(entries[1], baseName);
    assert IsPartialFile(entries[2], baseName) && !IsPartialFile(entries[3], baseName);
    PartialFilesStep(entries, 0, baseName);
    assert entries[..0] == [];
    assert PartialFiles(entries[..1], baseName) == [];
    PartialFilesStep(entries, 1, baseName);
    assert PartialFiles(entries[..2], baseName) == [part];
    PartialFilesStep(entries, 2, baseName);
    assert PartialFiles(entries[..3], baseName) == [part, temp];
    PartialFilesStep(entries, 3, baseName);
    assert entries[..4] == entries;
  }
}
