/**
 * extractFilename (main.go:118-156): recognise the artifact file name in one
 * line of the downloader's output. Four phrasings are tried in a fixed order;
 * the regular expressions of the last three are written out as the
 * leftmost-first, backtracking search that Go's regexp package performs
 * (FindStringSubmatch), over the RE2 classes `\s` (Text.IsReSpace) and `.`
 * (anything but a line feed).
 */
module Extract {
  import opened Wrappers
  import opened Text

  const DestinationMarker := "Destination:"
  const DownloadTag := "[download]"
  const AlreadyPhrase := "has already been downloaded"
  const DownloadingWord := "Downloading"
  const MergePhrase := "Merging formats into"
  /** The literal part of `Merging formats into "(.+?)"` before the group. */
  const MergeOpening := "Merging formats into \""

  /** The three regular expressions of extractFilename. */
  datatype Pattern =
    | AlreadyRe      // \[download\]\s+(.+?)\s+has already been downloaded
    | DownloadingRe  // \[download\]\s+Downloading\s+.*?:\s+(.+)
    | MergingRe      // Merging formats into "(.+?)"

  /** What must follow a lazy group for the rest of its pattern to match. */
  datatype Tail = AlreadyTail | QuoteTail

  /** The rest of the pattern after the lazy group matches at index e. */
  predicate TailAt(s: string, e: nat, t: Tail) {
    match t
    case AlreadyTail => e < |s| && IsReSpace(s[e]) && HasPrefixAt(s, SkipReSpace(s, e), AlreadyPhrase)
    case QuoteTail => e < |s| && s[e] == '"'
  }

  /**
   * A lazy group `(.+?)` that starts at g: the smallest end e >= from such
   * that s[g..e] holds no line feed and the tail matches at e.
   */
  function LazyEnd(s: string, g: nat, from: nat, t: Tail): (r: Option<nat>)
    requires g < from <= |s| + 1 && NoNewline(s, g, from - 1)
    ensures r.Some? ==> from <= r.value <= |s| && NoNewline(s, g, r.value) && TailAt(s, r.value, t)
    ensures r.Some? ==> forall e :: from <= e < r.value ==> !TailAt(s, e, t)
    ensures r.None? ==> forall e :: from <= e <= |s| && NoNewline(s, g, e) ==> !TailAt(s, e, t)
    decreases |s| + 1 - from
  {
    if from > |s| then None
    else if s[from - 1] == '\n' then
      assert forall e :: from <= e <= |s| ==> !NoNewline(s, g, e) by {
        forall e | from <= e <= |s| ensures !NoNewline(s, g, e) {
          assert g <= from - 1 < e && s[from - 1] == '\n';
        }
      }
      None
    else if TailAt(s, from, t) then Some(from)
    else LazyEnd(s, g, from + 1, t)
  }

  /** The end of a lazy group `(.+?)` that starts at g, if it can end at all. */
  function GroupEnd(s: string, g: nat, t: Tail): (r: Option<nat>)
    requires g <= |s|
    ensures r.Some? ==> g < r.value <= |s| && NoNewline(s, g, r.value) && TailAt(s, r.value, t)
    ensures r.Some? ==> forall e :: g < e < r.value ==> !TailAt(s, e, t)
    ensures r.None? ==> forall e :: g < e <= |s| && NoNewline(s, g, e) ==> !TailAt(s, e, t)
  {
    LazyEnd(s, g, g + 1, t)
  }

  /**
   * The backtracking of a greedy `\s+` in front of a lazy group: the group
   * starts at g, g - 1, ..., lo + 1 in that order, and the first start whose
   * lazy group can end wins. Gives the group's bounds.
   */
  function LazyGroupFrom(s: string, lo: nat, g: nat, t: Tail): (r: Option<(nat, nat)>)
    requires lo <= g <= |s|
    ensures r.Some? ==> lo < r.value.0 <= g && GroupEnd(s, r.value.0, t) == Some(r.value.1)
    ensures r.Some? ==> forall h :: r.value.0 < h <= g ==> GroupEnd(s, h, t).None?
    ensures r.None? ==> forall h :: lo < h <= g ==> GroupEnd(s, h, t).None?
    decreases g
  {
    if g <= lo then None
    else if GroupEnd(s, g, t).Some? then Some((g, GroupEnd(s, g, t).value))
    else LazyGroupFrom(s, lo, g - 1, t)
  }

  /**
   * The backtracking of `:\s+(.+)` after the colon at c: the greedy `\s+`
   * gives back one character at a time (the group starts at g, g - 1, ...,
   * c + 2) until the greedy group `(.+)` can take at least one character.
   */
  function GreedyGroupFrom(s: string, c: nat, g: nat): (r: Option<(nat, nat)>)
    requires c < g <= |s|
    ensures r.Some? ==> c + 1 < r.value.0 <= g && r.value.0 < |s| && s[r.value.0] != '\n'
    ensures r.Some? ==> r.value.1 == LineEnd(s, r.value.0)
    ensures r.Some? ==> forall h :: r.value.0 < h <= g ==> h == |s| || s[h] == '\n'
    ensures r.None? ==> forall h :: c + 1 < h <= g ==> h == |s| || s[h] == '\n'
    decreases g
  {
    if g <= c + 1 then None
    else if g < |s| && s[g] != '\n' then Some((g, LineEnd(s, g)))
    else GreedyGroupFrom(s, c, g - 1)
  }

  /** Every character of s[a..b] is in the RE2 class `\s`. */
  predicate AllReSpace(s: string, a: nat, b: nat)
    requires a <= b <= |s|
  {
    forall k :: a <= k < b ==> IsReSpace(s[k])
  }

  /** s[g..e] is what a greedy `(.+)` takes at g: the non-empty rest of the line. */
  predicate GreedyLine(s: string, g: nat, e: nat) {
    g < e <= |s| && NoNewline(s, g, e) && (e == |s| || s[e] == '\n')
  }

  /** `.*?:\s+` matches s[h..g] with its colon at c: non-line-feed characters, the colon, then white space. */
  predicate ColonAt(s: string, h: nat, c: nat, g: nat) {
    h <= c && c + 1 < g <= |s| && s[c] == ':' && NoNewline(s, h, c) && AllReSpace(s, c + 1, g)
  }

  /** `.*?:\s+` matches s[h..g]. */
  predicate ColonGroup(s: string, h: nat, g: nat) {
    exists c :: h <= c < g && ColonAt(s, h, c, g)
  }

  /** `\[download\]\s+(.+?)\s+has already been downloaded` matches at i with its group at s[g..e]. */
  predicate AlreadyReMatch(s: string, i: nat, g: nat, e: nat) {
    && HasPrefixAt(s, i, DownloadTag) && i + |DownloadTag| < g < e <= |s|
    && AllReSpace(s, i + |DownloadTag|, g) && NoNewline(s, g, e) && TailAt(s, e, AlreadyTail)
  }

  /** `\[download\]\s+Downloading\s+.*?:\s+(.+)` matches at i with its group at s[g..e]. */
  predicate DownloadingReMatch(s: string, i: nat, g: nat, e: nat) {
    && HasPrefixAt(s, i, DownloadTag) && GreedyLine(s, g, e)
    && (exists w :: i + |DownloadTag| < w && w + |DownloadingWord| < g
         && AllReSpace(s, i + |DownloadTag|, w) && HasPrefixAt(s, w, DownloadingWord)
         && (exists h :: w + |DownloadingWord| < h <= g
              && AllReSpace(s, w + |DownloadingWord|, h) && ColonGroup(s, h, g)))
  }

  /** `Merging formats into "(.+?)"` matches at i with its group at s[g..e]. */
  predicate MergingReMatch(s: string, i: nat, g: nat, e: nat) {
    HasPrefixAt(s, i, MergeOpening) && g == i + |MergeOpening| && g < e <= |s|
    && NoNewline(s, g, e) && TailAt(s, e, QuoteTail)
  }

  /** A run of `\s` that starts at a ends no later than the maximal one. */
  lemma RunBound(s: string, a: nat)
    requires a <= |s|
    ensures forall g :: a <= g <= |s| && AllReSpace(s, a, g) ==> g <= SkipReSpace(s, a)
  {
  }

  /** A greedy `(.+)` starts on a character that is not a line feed. */
  lemma GreedyLineStart(s: string)
    ensures forall g: nat, e: nat :: GreedyLine(s, g, e) ==> g < |s| && s[g] != '\n'
  {
  }

  /** When no start of a lazy group in (lo, hi] lets it end, no end after any of those starts has the tail. */
  lemma NoLazyGroup(s: string, lo: nat, hi: nat, t: Tail)
    requires lo <= hi <= |s|
    ensures LazyGroupFrom(s, lo, hi, t).None? ==>
      forall g, e :: lo < g <= hi && g < e <= |s| && NoNewline(s, g, e) ==> !TailAt(s, e, t)
  {
    if LazyGroupFrom(s, lo, hi, t).None? {
      forall g, e | lo < g <= hi && g < e <= |s| && NoNewline(s, g, e)
        ensures !TailAt(s, e, t)
      {
        assert GroupEnd(s, g, t).None?;
      }
    }
  }

  /**
   * Backtracking picks the latest start in (lo, hi] whose lazy group can end
   * and, from that start, the earliest end: every other group whose tail
   * matches starts earlier, or starts there and ends no sooner.
   */
  lemma LazyGroupFirst(s: string, lo: nat, hi: nat, t: Tail)
    requires lo <= hi <= |s| && LazyGroupFrom(s, lo, hi, t).Some?
    ensures forall g: nat, e: nat :: lo < g <= hi && g < e <= |s| && NoNewline(s, g, e) && TailAt(s, e, t) ==>
      var (g0, e0) := LazyGroupFrom(s, lo, hi, t).value;
      g < g0 || (g == g0 && e0 <= e)
  {
  }

  /** A lazy group that stops at the first closing quote holds no quote after its first character. */
  lemma QuoteFree(s: string, g: nat, e: nat)
    requires e <= |s|
    requires forall k :: g < k < e ==> !TailAt(s, k, QuoteTail)
    ensures forall k :: g < k < e ==> s[k] != '"'
  {
    forall k | g < k < e ensures s[k] != '"' {
      assert !TailAt(s, k, QuoteTail);
    }
  }

  /** `Downloading` after a run of `\s` that starts at a begins where the maximal run ends. */
  lemma WordAfterRun(s: string, a: nat)
    requires a <= |s|
    ensures forall w :: a <= w <= |s| && AllReSpace(s, a, w) && HasPrefixAt(s, w, DownloadingWord) ==>
      w == SkipReSpace(s, a)
  {
    forall w | a <= w <= |s| && AllReSpace(s, a, w) && HasPrefixAt(s, w, DownloadingWord)
      ensures w == SkipReSpace(s, a)
    {
      assert s[w] == s[w..w + |DownloadingWord|][0] == 'D';
    }
  }

  /** `:\s+(.+)` with the colon at c. */
  function AfterColon(s: string, c: nat): (r: Option<(nat, nat)>)
    requires c < |s| && s[c] == ':'
    ensures r.Some? ==> c + 1 < r.value.0 < r.value.1 <= |s|
    ensures r.Some? ==> AllReSpace(s, c + 1, r.value.0) && GreedyLine(s, r.value.0, r.value.1)
    ensures r.None? ==> forall g, e :: c + 1 < g <= |s| && AllReSpace(s, c + 1, g) ==> !GreedyLine(s, g, e)
  {
    var run := SkipReSpace(s, c + 1);
    RunBound(s, c + 1);
    GreedyLineStart(s);
    if run == c + 1 then None else GreedyGroupFrom(s, c, run)
  }

  /**
   * The lazy `.*?:` that starts at h, with the candidate colon at c: the
   * first colon after which `\s+(.+)` matches, passing no line feed.
   */
  function ColonScan(s: string, h: nat, c: nat): (r: Option<(nat, nat)>)
    requires h <= c <= |s| && NoNewline(s, h, c)
    ensures r.Some? ==> c < r.value.0 < r.value.1 <= |s|
    ensures r.Some? ==> ColonGroup(s, h, r.value.0) && GreedyLine(s, r.value.0, r.value.1)
    ensures r.None? ==> forall c', g, e :: c <= c' && ColonAt(s, h, c', g) ==> !GreedyLine(s, g, e)
    decreases |s| - c
  {
    if c == |s| then None
    else if s[c] == ':' && AfterColon(s, c).Some? then
      assert ColonAt(s, h, c, AfterColon(s, c).value.0);
      AfterColon(s, c)
    else if s[c] == '\n' then None
    else ColonScan(s, h, c + 1)
  }

  /**
   * The backtracking of the greedy `\s+` in front of `.*?`: the lazy part
   * starts at h, h - 1, ..., lo + 1 in that order.
   */
  function ColonScanFrom(s: string, lo: nat, h: nat): (r: Option<(nat, nat)>)
    requires lo <= h <= |s|
    ensures r.Some? ==> lo < r.value.0 < r.value.1 <= |s|
    ensures r.Some? ==> exists h' :: lo < h' <= h && ColonGroup(s, h', r.value.0)
    ensures r.Some? ==> GreedyLine(s, r.value.0, r.value.1)
    ensures r.None? ==> forall h', g, e :: lo < h' <= h && ColonGroup(s, h', g) ==> !GreedyLine(s, g, e)
    decreases h
  {
    if h <= lo then None
    else if ColonScan(s, h, h).Some? then ColonScan(s, h, h)
    else ColonScanFrom(s, lo, h - 1)
  }

  /** The text the pattern must start with. */
  function Opening(p: Pattern): string {
    match p
    case AlreadyRe => DownloadTag
    case DownloadingRe => DownloadTag
    case MergingRe => MergeOpening
  }

  /** `\[download\]\s+(.+?)\s+has already been downloaded` at index i: the group bounds, if it matches there. */
  function AlreadyMatchAt(s: string, i: nat): (r: Option<(nat, nat)>)
    ensures r.Some? ==> AlreadyReMatch(s, i, r.value.0, r.value.1)
    ensures r.Some? ==> forall g: nat, e: nat :: AlreadyReMatch(s, i, g, e) ==>
      g < r.value.0 || (g == r.value.0 && r.value.1 <= e)
    ensures r.None? ==> forall g, e :: !AlreadyReMatch(s, i, g, e)
  {
    if !HasPrefixAt(s, i, DownloadTag) then None
    else
      var run := SkipReSpace(s, i + |DownloadTag|);
      RunBound(s, i + |DownloadTag|);
      NoLazyGroup(s, i + |DownloadTag|, run, AlreadyTail);
      if run == i + |DownloadTag| then None
      else if LazyGroupFrom(s, i + |DownloadTag|, run, AlreadyTail).None? then None
      else
        LazyGroupFirst(s, i + |DownloadTag|, run, AlreadyTail);
        LazyGroupFrom(s, i + |DownloadTag|, run, AlreadyTail)
  }

  /**
   * `\[download\]\s+Downloading\s+.*?:\s+(.+)` at index i. A shorter first
   * `\s+` would leave a space where the `D` of Downloading must stand, so
   * only the longest is tried.
   */
  function DownloadingMatchAt(s: string, i: nat): (r: Option<(nat, nat)>)
    ensures r.Some? ==> DownloadingReMatch(s, i, r.value.0, r.value.1)
    ensures r.None? ==> forall g, e :: !DownloadingReMatch(s, i, g, e)
  {
    if !HasPrefixAt(s, i, DownloadTag) then None
    else
      var word := SkipReSpace(s, i + |DownloadTag|);
      WordAfterRun(s, i + |DownloadTag|);
      if word == i + |DownloadTag| || !HasPrefixAt(s, word, DownloadingWord) then None
      else
        var run := SkipReSpace(s, word + |DownloadingWord|);
        RunBound(s, word + |DownloadingWord|);
        if run == word + |DownloadingWord| then None
        else ColonScanFrom(s, word + |DownloadingWord|, run)
  }

  /** `Merging formats into "(.+?)"` at index i. */
  function MergingMatchAt(s: string, i: nat): (r: Option<(nat, nat)>)
    ensures r.Some? ==> MergingReMatch(s, i, r.value.0, r.value.1)
    ensures r.Some? ==> forall e :: r.value.0 < e < r.value.1 ==> s[e] != '"'
    ensures r.None? ==> forall g, e :: !MergingReMatch(s, i, g, e)
  {
    if !HasPrefixAt(s, i, MergeOpening) then None
    else
      var g := i + |MergeOpening|;
      match GroupEnd(s, g, QuoteTail)
      case Some(e) =>
        QuoteFree(s, g, e);
        Some((g, e))
      case None => None
  }

  /** The group bounds of a match of pattern p that starts at index i, if one starts there. */
  function MatchAt(s: string, i: nat, p: Pattern): (r: Option<(nat, nat)>)
    ensures r.Some? ==> HasPrefixAt(s, i, Opening(p))
    ensures r.Some? ==> i < r.value.0 < r.value.1 <= |s|
    ensures r.Some? && p == AlreadyRe ==> AlreadyReMatch(s, i, r.value.0, r.value.1)
    ensures r.Some? && p == DownloadingRe ==> DownloadingReMatch(s, i, r.value.0, r.value.1)
    ensures r.Some? && p == MergingRe ==> MergingReMatch(s, i, r.value.0, r.value.1)
    ensures r.Some? && p == AlreadyRe ==> forall g: nat, e: nat :: AlreadyReMatch(s, i, g, e) ==>
      g < r.value.0 || (g == r.value.0 && r.value.1 <= e)
    ensures r.Some? && p == MergingRe ==> forall e :: r.value.0 < e < r.value.1 ==> s[e] != '"'
    ensures r.None? && p == AlreadyRe ==> forall g, e :: !AlreadyReMatch(s, i, g, e)
    ensures r.None? && p == DownloadingRe ==> forall g, e :: !DownloadingReMatch(s, i, g, e)
    ensures r.None? && p == MergingRe ==> forall g, e :: !MergingReMatch(s, i, g, e)
  {
    match p
    case AlreadyRe => AlreadyMatchAt(s, i)
    case DownloadingRe => DownloadingMatchAt(s, i)
    case MergingRe => MergingMatchAt(s, i)
  }

  /** The leftmost index at or after i where a match of p starts. */
  function Leftmost(s: string, i: nat, p: Pattern): (r: Option<nat>)
    ensures r.Some? ==> i <= r.value && MatchAt(s, r.value, p).Some?
    ensures r.Some? ==> forall k :: i <= k < r.value ==> MatchAt(s, k, p).None?
    ensures r.None? ==> forall k :: i <= k ==> MatchAt(s, k, p).None?
    decreases |s| - i
  {
    if i > |s| then None
    else if MatchAt(s, i, p).Some? then Some(i)
    else Leftmost(s, i + 1, p)
  }

  /** regexp.FindStringSubmatch(s)[1]: the first group of the leftmost match, if any. */
  function Submatch(s: string, p: Pattern): Option<string>
  {
    match Leftmost(s, 0, p)
    case None => None
    case Some(i) =>
      var (g, e) := MatchAt(s, i, p).value;
      Some(s[g..e])
  }

  /** strings.Split(line, "Destination:")[1]: the text between the first marker and the next one, or the end. */
  function DestinationPart(line: string): string
    requires Contains(line, DestinationMarker)
  {
    var start := IndexFrom(line, DestinationMarker, 0).value + |DestinationMarker|;
    match IndexFrom(line, DestinationMarker, start)
    case Some(j) => line[start..j]
    case None => line[start..]
  }

  /** extractFilename: the artifact name a line of output reveals, or "" when it reveals none. */
  function ExtractFilename(line: string): string
  {
    if Contains(line, DestinationMarker) then TrimSpace(DestinationPart(line))
    else RegexFilename(line)
  }

  /** The three regular-expression phrasings of extractFilename, in their order. */
  function RegexFilename(line: string): string
  {
    if Contains(line, DownloadTag) && Contains(line, AlreadyPhrase) && Submatch(line, AlreadyRe).Some? then
      TrimSpace(Submatch(line, AlreadyRe).value)
    else if Contains(line, DownloadTag) && Contains(line, DownloadingWord) && Submatch(line, DownloadingRe).Some? then
      TrimSpace(Submatch(line, DownloadingRe).value)
    else if Contains(line, MergePhrase) && Submatch(line, MergingRe).Some? then
      TrimSpace(Submatch(line, MergingRe).value)
    else
      ""
  }

  // ---------------------------------------------------------------------
  // What extractFilename yields for each phrasing

  /** The first occurrence of a pattern is what IndexFrom finds. */
  lemma IndexFromIs(s: string, p: string, i: nat, at: nat)
    requires i <= at && HasPrefixAt(s, at, p)
    requires forall k :: i <= k < at ==> !HasPrefixAt(s, k, p)
    ensures IndexFrom(s, p, i) == Some(at)
  {
  }

  /**
   * A line with a destination marker yields the trimmed text between the
   * first marker and the next one (or the end of the line), whatever else
   * the line holds: this phrasing takes priority over the three others.
   */
  lemma DestinationIsExtracted(line: string, i: nat, j: nat)
    requires HasPrefixAt(line, i, DestinationMarker)
    requires forall k :: 0 <= k < i ==> !HasPrefixAt(line, k, DestinationMarker)
    requires i + |DestinationMarker| <= j <= |line|
    requires HasPrefixAt(line, j, DestinationMarker) || j == |line|
    requires forall k :: i + |DestinationMarker| <= k < j ==> !HasPrefixAt(line, k, DestinationMarker)
    ensures ExtractFilename(line) == TrimSpace(line[i + |DestinationMarker|..j])
  {
    assert |DestinationMarker| == 12;
    IndexFromIs(line, DestinationMarker, 0, i);
    assert Contains(line, DestinationMarker);
    var start := i + 12;
    if HasPrefixAt(line, j, DestinationMarker) {
      IndexFromIs(line, DestinationMarker, start, j);
      assert DestinationPart(line) == line[start..j];
    } else {
      assert IndexFrom(line, DestinationMarker, start).None?;
      assert DestinationPart(line) == line[start..j];
    }
  }

  /** No character of s is c. */
  predicate Lacks(s: string, c: char) {
    forall k :: 0 <= k < |s| ==> s[k] != c
  }

  /** A line without the character at index k of a pattern does not contain the pattern. */
  lemma LacksPattern(s: string, p: string, k: nat)
    requires k < |p| && Lacks(s, p[k])
    ensures !Contains(s, p)
  {
    if Contains(s, p) {
      ContainsChar(s, p, k);
    }
  }

  /** The only end of the maximal `\s` run at i is j. */
  lemma SkipReSpaceIs(s: string, i: nat, j: nat)
    requires i <= j <= |s|
    requires forall k :: i <= k < j ==> IsReSpace(s[k])
    requires j < |s| ==> !IsReSpace(s[j])
    ensures SkipReSpace(s, i) == j
  {
  }

  /** A lazy group that can end at e and at no earlier index ends at e. */
  lemma GroupEndIs(s: string, g: nat, e: nat, t: Tail)
    requires g < e <= |s| && NoNewline(s, g, e) && TailAt(s, e, t)
    requires forall k :: g < k < e ==> !TailAt(s, k, t)
    ensures GroupEnd(s, g, t) == Some(e)
  {
  }

  /** The line that reports an artifact already on disk: `[download] NAME has already been downloaded`. */
  function AlreadyDownloadedLine(name: string): string {
    DownloadTag + " " + name + " " + AlreadyPhrase
  }

  /**
   * No copy of the already-downloaded phrase starts inside the name right
   * after white space: such a copy would end the lazy group early.
   */
  predicate NoSpacedPhrase(name: string) {
    forall k :: 0 < k < |name| && IsReSpace(name[k - 1]) ==> !HasPrefixAt(name, k, AlreadyPhrase)
  }

  /**
   * The name in an already-downloaded line is recovered, for every
   * one-line name with no white space at either end and no white-space-led
   * copy of the phrase, when the line holds no destination marker (which
   * would take priority). Inner spaces and brackets, as in yt-dlp's
   * default `Title [id].mp4`, are allowed.
   */
  lemma {:induction false} AlreadyDownloadedRoundTrip(name: string)
    requires name != [] && !IsSpace(name[0]) && !IsSpace(name[|name| - 1])
    requires forall k :: 0 <= k < |name| ==> name[k] != '\n'
    requires NoSpacedPhrase(name)
    requires !Contains(AlreadyDownloadedLine(name), DestinationMarker)
    ensures ExtractFilename(AlreadyDownloadedLine(name)) == name
  {
    var s := AlreadyDownloadedLine(name);
    var e := 11 + |name|;
    AlreadyDownloadedLineShape(name);
    ContainsAt(s, DownloadTag, 0);
    ContainsAt(s, AlreadyPhrase, e + 1);
    AlreadyDownloadedMatch(name);
    SubmatchAtStart(s, AlreadyRe, 11, e, name);
    assert name == [] + name + [];
    TrimSpaceOf([], name, []);
  }

  /** Where the parts of an already-downloaded line stand. */
  lemma AlreadyDownloadedLineShape(name: string)
    ensures var s := AlreadyDownloadedLine(name); var e := 11 + |name|;
      && |s| == e + 1 + |AlreadyPhrase|
      && s[..10] == DownloadTag && s[10] == ' ' && s[11..e] == name && s[e] == ' '
      && s[e + 1..] == AlreadyPhrase && s[e + 1] == 'h'
  {
    var s := AlreadyDownloadedLine(name);
    assert |DownloadTag| == 10 && |AlreadyPhrase| == 27;
    assert s == DownloadTag + " " + name + " " + AlreadyPhrase;
  }

  /** In the phrase, a space is never followed by `h`, and it does not end in a space. */
  lemma PhraseSpaces(m: nat)
    requires m < |AlreadyPhrase| && AlreadyPhrase[m] == ' '
    ensures m + 1 < |AlreadyPhrase| && AlreadyPhrase[m + 1] != 'h'
  {
  }

  /** Inside the name, the lazy group of the already-downloaded expression cannot end. */
  lemma NoTailInName(name: string, k: nat)
    requires name != [] && !IsSpace(name[|name| - 1])
    requires NoSpacedPhrase(name)
    requires 11 < k < 11 + |name|
    ensures !TailAt(AlreadyDownloadedLine(name), k, AlreadyTail)
  {
    var s := AlreadyDownloadedLine(name);
    var e := 11 + |name|;
    AlreadyDownloadedLineShape(name);
    if IsReSpace(s[k]) {
      var j := SkipReSpace(s, k);
      assert s[e - 1] == name[|name| - 1];
      assert k < j < e;
      NoPhraseAfterSpace(name, j);
    }
  }

  /** After white space inside the name, no copy of the phrase starts. */
  lemma NoPhraseAfterSpace(name: string, j: nat)
    requires NoSpacedPhrase(name)
    requires 11 < j < 11 + |name| && IsReSpace(AlreadyDownloadedLine(name)[j - 1])
    ensures !HasPrefixAt(AlreadyDownloadedLine(name), j, AlreadyPhrase)
  {
    var s := AlreadyDownloadedLine(name);
    var e := 11 + |name|;
    AlreadyDownloadedLineShape(name);
    assert |AlreadyPhrase| == 27;
    if j + 27 <= e {
      // a copy inside the name, led by the white space at j - 1
      assert forall i :: 11 <= i < e ==> s[i] == s[11..e][i - 11];
      assert name[j - 12] == s[j - 1];
      assert s[j..j + 27] == name[j - 11..j + 16];
      assert !HasPrefixAt(name, j - 11, AlreadyPhrase);
    } else {
      // a copy reaching past the name would need a space followed by `h`
      var m := e - j;
      assert s[j..j + 27][m] == s[e];
      if AlreadyPhrase[m] == ' ' {
        PhraseSpaces(m);
        assert s[j..j + 27][m + 1] == s[e + 1];
      }
    }
  }

  /** A colon-free name is recovered from its already-downloaded line: no destination marker can form. */
  lemma AlreadyDownloadedColonFree(name: string)
    requires name != [] && !IsSpace(name[0]) && !IsSpace(name[|name| - 1])
    requires forall k :: 0 <= k < |name| ==> name[k] != '\n' && name[k] != ':'
    requires NoSpacedPhrase(name)
    ensures ExtractFilename(AlreadyDownloadedLine(name)) == name
  {
    var s := AlreadyDownloadedLine(name);
    var e := 11 + |name|;
    AlreadyDownloadedLineShape(name);
    assert Lacks(DownloadTag, ':') && Lacks(AlreadyPhrase, ':');
    forall k | 0 <= k < |s| ensures s[k] != ':' {
      if k < 10 { assert s[k] == DownloadTag[k]; }
      else if e < k { assert s[k] == AlreadyPhrase[k - e - 1]; }
      else if 10 < k < e { assert s[k] == name[k - 11]; }
    }
    LacksPattern(s, DestinationMarker, 11);
    AlreadyDownloadedRoundTrip(name);
  }

  /** The leftmost already-downloaded match of such a line captures exactly the name. */
  lemma AlreadyDownloadedMatch(name: string)
    requires name != [] && !IsSpace(name[0]) && !IsSpace(name[|name| - 1])
    requires forall k :: 0 <= k < |name| ==> name[k] != '\n'
    requires NoSpacedPhrase(name)
    ensures MatchAt(AlreadyDownloadedLine(name), 0, AlreadyRe) == Some((11, 11 + |name|))
  {
    var s := AlreadyDownloadedLine(name);
    var e := 11 + |name|;
    AlreadyDownloadedLineShape(name);
    assert |DownloadTag| == 10;
    assert forall i :: 11 <= i < e ==> s[i] == name[i - 11];
    // the first `\s+` is the single space; the lazy group runs up to the space before the phrase
    assert s[11] == name[0];
    SkipReSpaceIs(s, 10, 11);
    SkipReSpaceIs(s, e, e + 1);
    assert TailAt(s, e, AlreadyTail);
    forall k | 11 < k < e ensures !TailAt(s, k, AlreadyTail) {
      NoTailInName(name, k);
    }
    GroupEndIs(s, 11, e, AlreadyTail);
    assert LazyGroupFrom(s, 10, 11, AlreadyTail) == Some((11, e));
  }

  /** The line that reports the merged output: `Merging formats into "NAME"`. */
  function MergingLine(name: string): string {
    MergeOpening + name + "\""
  }

  /**
   * The name in a merge line is recovered, for every one-line name without
   * quotes and with no white space at either end, when the line holds
   * neither a destination marker nor the keywords of the two bracketed
   * phrasings (which would be tried first). Inner spaces and brackets are
   * allowed.
   */
  lemma {:induction false} MergingRoundTrip(name: string)
    requires name != [] && !IsSpace(name[0]) && !IsSpace(name[|name| - 1])
    requires forall k :: 0 <= k < |name| ==> name[k] != '"' && name[k] != '\n'
    requires !Contains(MergingLine(name), DestinationMarker)
    requires !Contains(MergingLine(name), DownloadTag)
      || (!Contains(MergingLine(name), AlreadyPhrase) && !Contains(MergingLine(name), DownloadingWord))
    ensures ExtractFilename(MergingLine(name)) == name
  {
    var s := MergingLine(name);
    var g := |MergeOpening|;
    var e := g + |name|;
    MergingLineShape(name);
    ContainsAt(s, MergePhrase, 0);
    assert forall k :: g <= k < e ==> s[k] == name[k - g];
    assert NoNewline(s, g, e);
    assert forall k :: g < k < e ==> !TailAt(s, k, QuoteTail);
    GroupEndIs(s, g, e, QuoteTail);
    assert MatchAt(s, 0, MergingRe) == Some((g, e));
    SubmatchAtStart(s, MergingRe, g, e, name);
    assert name == [] + name + [];
    TrimSpaceOf([], name, []);
  }

  /** Where the parts of a merge line stand. */
  lemma MergingLineShape(name: string)
    ensures var s := MergingLine(name); var g := |MergeOpening|; var e := g + |name|;
      && g == 22 && |s| == e + 1
      && s[..g] == MergeOpening && s[..|MergePhrase|] == MergePhrase
      && s[g..e] == name && s[e] == '"'
  {
    var s := MergingLine(name);
    assert |MergeOpening| == 22 && |MergePhrase| == 20;
    assert s == MergeOpening + name + "\"";
    assert MergeOpening[..20] == MergePhrase;
  }

  /** The line that announces one item of a multi-item download: `[download] Downloading ITEM: NAME`. */
  function DownloadingLine(item: string, name: string): string {
    DownloadTag + " " + DownloadingWord + " " + item + ": " + name
  }

  /** The lazy `.*?` passes over characters that are neither colons nor line feeds. */
  lemma {:induction false} ColonScanSkips(s: string, h: nat, c: nat, c': nat)
    requires h <= c <= c' <= |s| && NoNewline(s, h, c)
    requires forall k :: c <= k < c' ==> s[k] != ':' && s[k] != '\n'
    ensures NoNewline(s, h, c')
    ensures ColonScan(s, h, c) == ColonScan(s, h, c')
    decreases c' - c
  {
    if c < c' {
      assert NoNewline(s, h, c + 1);
      ColonScanSkips(s, h, c + 1, c');
    }
  }

  /** Where the parts of a multi-item line stand. */
  lemma DownloadingLineShape(item: string, name: string)
    ensures var s := DownloadingLine(item, name); var c := 23 + |item|;
      && |s| == c + 2 + |name|
      && s[..10] == DownloadTag && s[10] == ' ' && s[11..22] == DownloadingWord && s[22] == ' '
      && s[23..c] == item && s[c] == ':' && s[c + 1] == ' ' && s[c + 2..] == name
      && s[|s| - |name|..|s|] == name
  {
    var s := DownloadingLine(item, name);
    assert |DownloadTag| == 10 && |DownloadingWord| == 11;
    assert s == DownloadTag + " " + DownloadingWord + " " + item + ": " + name;
  }

  /**
   * The name after the colon of a multi-item line is recovered when the line
   * carries neither of the two phrasings that take priority, the item holds
   * no colon or line feed and does not start with a space, and the name is a
   * single line with no space at either end.
   */
  lemma {:induction false} DownloadingRoundTrip(item: string, name: string)
    requires forall k :: 0 <= k < |item| ==> item[k] != ':' && item[k] != '\n'
    requires item != [] ==> !IsReSpace(item[0])
    requires name != [] && !IsSpace(name[0]) && !IsSpace(name[|name| - 1])
    requires forall k :: 0 <= k < |name| ==> name[k] != '\n'
    requires !Contains(DownloadingLine(item, name), DestinationMarker)
    requires !Contains(DownloadingLine(item, name), AlreadyPhrase)
    ensures ExtractFilename(DownloadingLine(item, name)) == name
  {
    var s := DownloadingLine(item, name);
    DownloadingLineShape(item, name);
    ContainsAt(s, DownloadTag, 0);
    ContainsAt(s, DownloadingWord, 11);
    DownloadingMatch(item, name);
    SubmatchAtStart(s, DownloadingRe, |s| - |name|, |s|, name);
    assert name == [] + name + [];
    TrimSpaceOf([], name, []);
  }

  /** A match that starts the line is the leftmost one. */
  lemma SubmatchAtStart(s: string, p: Pattern, g: nat, e: nat, group: string)
    requires MatchAt(s, 0, p) == Some((g, e)) && s[g..e] == group
    ensures Submatch(s, p) == Some(group)
  {
    assert Leftmost(s, 0, p) == Some(0);
  }

  /** The leftmost multi-item match of such a line captures exactly the name. */
  lemma DownloadingMatch(item: string, name: string)
    requires forall k :: 0 <= k < |item| ==> item[k] != ':' && item[k] != '\n'
    requires item != [] ==> !IsReSpace(item[0])
    requires name != [] && !IsSpace(name[0])
    requires forall k :: 0 <= k < |name| ==> name[k] != '\n'
    ensures var s := DownloadingLine(item, name);
      MatchAt(s, 0, DownloadingRe) == Some((|s| - |name|, |s|))
  {
    var s := DownloadingLine(item, name);
    var c := 23 + |item|;
    DownloadingLineShape(item, name);
    assert forall k :: 23 <= k < c ==> s[k] == item[k - 23];
    // `\s+Downloading\s+`: single spaces on both sides of the word
    assert s[11] == 'D';
    SkipReSpaceIs(s, 10, 11);
    assert s[23] == if item == [] then ':' else item[0];
    SkipReSpaceIs(s, 22, 23);
    // `.*?:` passes over the item up to the colon
    ColonScanSkips(s, 23, 23, c);
    AfterColonName(s, c, name);
    assert ColonScan(s, 23, c) == Some((c + 2, |s|));
    assert ColonScanFrom(s, 22, 23) == Some((c + 2, |s|));
  }

  /** `:\s+(.+)` after a colon, one space and a one-line name captures the name. */
  lemma AfterColonName(s: string, c: nat, name: string)
    requires c + 2 <= |s| && s[c] == ':' && s[c + 1] == ' ' && s[c + 2..] == name
    requires name != [] && !IsSpace(name[0])
    requires forall k :: 0 <= k < |name| ==> name[k] != '\n'
    ensures AfterColon(s, c) == Some((c + 2, |s|))
  {
    assert forall k :: c + 2 <= k < |s| ==> s[k] == name[k - c - 2];
    assert s[c + 2] == name[0];
    SkipReSpaceIs(s, c + 1, c + 2);
    assert LineEnd(s, c + 2) == |s|;
  }

  /** An occurrence of the destination marker puts a colon eleven places on. */
  lemma MarkerColon(s: string, k: nat)
    requires HasPrefixAt(s, k, DestinationMarker)
    ensures k + 11 < |s| && s[k + 11] == ':'
  {
    assert s[k..k + 12][11] == s[k + 11];
  }

  /** The destination marker does not occur where no colon can follow. */
  lemma NoMarkerFrom(s: string, from: nat)
    requires forall k :: from <= k < |s| ==> s[k] != ':'
    ensures forall k :: from <= k ==> !HasPrefixAt(s, k, DestinationMarker)
  {
    forall k | from <= k
      ensures !HasPrefixAt(s, k, DestinationMarker)
    {
      if HasPrefixAt(s, k, DestinationMarker) {
        MarkerColon(s, k);
      }
    }
  }

  /**
   * A destination line `Destination: NAME` yields NAME for every name
   * without colons whose ends are not white space.
   */
  lemma DestinationRoundTrip(name: string)
    requires name != [] && !IsSpace(name[0]) && !IsSpace(name[|name| - 1])
    requires forall k :: 0 <= k < |name| ==> name[k] != ':'
    ensures ExtractFilename(DestinationMarker + " " + name) == name
  {
    var s := DestinationMarker + " " + name;
    DestinationLineShape(name);
    DestinationIsExtracted(s, 0, |s|);
    TrimSpaceOf(" ", name, []);
  }

  /** In `Destination: NAME` with a colon-free name, the marker occurs once, at the start. */
  lemma DestinationLineShape(name: string)
    requires forall k :: 0 <= k < |name| ==> name[k] != ':'
    ensures var s := DestinationMarker + " " + name;
      && HasPrefixAt(s, 0, DestinationMarker)
      && (forall k :: 12 <= k ==> !HasPrefixAt(s, k, DestinationMarker))
      && s[12..] == " " + name + []
  {
    var s := DestinationMarker + " " + name;
    assert |DestinationMarker| == 12;
    assert s[..12] == DestinationMarker;
    assert forall k :: 12 <= k < |s| ==> s[k] != ':' by {
      forall k | 12 <= k < |s| ensures s[k] != ':' {
        if k > 12 {
          assert s[k] == name[k - 13];
        }
      }
    }
    NoMarkerFrom(s, 12);
    assert s[12..] == " " + name + [];
  }

  /** A destination line yields the trimmed path after the marker. */
  lemma DestinationExample(line: string, name: string)
    requires line == "Destination: movie.mp4" && name == "movie.mp4"
    ensures ExtractFilename(line) == name
  {
    assert line == DestinationMarker + " " + name;
    DestinationRoundTrip(name);
  }

  /** An already-downloaded line yields the name between the tag and the phrase. */
  lemma AlreadyDownloadedExample(name: string)
    requires name == "clip.mp4"
    ensures ExtractFilename(AlreadyDownloadedLine(name)) == name
  {
    ClipNameParts(name);
    AlreadyDownloadedColonFree(name);
  }

  lemma ClipNameParts(name: string)
    requires name == "clip.mp4"
    ensures name != [] && !IsSpace(name[0]) && !IsSpace(name[|name| - 1])
    ensures forall k :: 0 <= k < |name| ==> name[k] != '\n' && name[k] != ':'
    ensures NoSpacedPhrase(name)
  {
    ShortNameNoPhrase(name);
  }

  /** A name shorter than the phrase holds no copy of it. */
  lemma ShortNameNoPhrase(name: string)
    requires |name| < |AlreadyPhrase|
    ensures NoSpacedPhrase(name)
  {
  }

  /**
   * yt-dlp's default `Title [id].mp4` naming, with inner spaces and
   * brackets: `[download] My Clip [abc].mp4 has already been downloaded`
   * yields the whole name.
   */
  lemma AlreadyDownloadedTitleExample(name: string)
    requires name == "My Clip [abc].mp4"
    ensures ExtractFilename(AlreadyDownloadedLine(name)) == name
  {
    TitleNameParts(name);
    AlreadyDownloadedColonFree(name);
  }

  lemma TitleNameParts(name: string)
    requires name == "My Clip [abc].mp4"
    ensures name != [] && !IsSpace(name[0]) && !IsSpace(name[|name| - 1])
    ensures forall k :: 0 <= k < |name| ==> name[k] != '\n' && name[k] != ':'
    ensures NoSpacedPhrase(name)
  {
    ShortNameNoPhrase(name);
  }

  /** A merge line yields the quoted name, up to the first closing quote. */
  lemma MergingExample(line: string, name: string)
    requires line == "Merging formats into \"final.mp4\"" && name == "final.mp4"
    ensures ExtractFilename(line) == name
  {
    assert line == MergingLine(name);
    assert Lacks(line, ':') && Lacks(line, '[');
    LacksPattern(line, DestinationMarker, 11);
    LacksPattern(line, DownloadTag, 0);
    MergingRoundTrip(name);
  }

  /** A merge line with a `Title [id].mp4` name yields the whole name. */
  lemma MergingTitleExample(line: string, name: string)
    requires line == "Merging formats into \"My Clip [abc].mp4\"" && name == "My Clip [abc].mp4"
    ensures ExtractFilename(line) == name
  {
    assert line == MergingLine(name);
    assert Lacks(line, ':') && Lacks(line, 'w');
    LacksPattern(line, DestinationMarker, 11);
    LacksPattern(line, DownloadTag, 3);
    MergingRoundTrip(name);
  }

  /** A progress line matches no phrasing and yields "". */
  lemma ProgressLineExample(p: string)
    requires p == "[download]  50.0% of 10MiB"
    ensures ExtractFilename(p) == ""
  {
    assert Lacks(p, ':') && Lacks(p, 'h') && Lacks(p, 'D') && Lacks(p, 'g');
    LacksPattern(p, DestinationMarker, 11);
    LacksPattern(p, AlreadyPhrase, 0);
    LacksPattern(p, DownloadingWord, 0);
    LacksPattern(p, MergePhrase, 3);
  }
}
