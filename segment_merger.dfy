/** Stitching the ten segment files of one full-disk HSD observation into
    one tile.

    A segment file is named with a token such as `_S0310` (segment 3 of
    10). The token is searched for, the path is turned into a template by
    rewriting every `_S` followed by four digits, the template is filled in
    for segments 1 to 10, and the files found are decoded and stacked
    vertically, metadata taken from the first. File existence and contents
    come from a `FileSystem`. Paths are ASCII; `\d` matches ASCII digits
    only. */
module SegmentMerger {
  import opened Basics
  import opened HsdReader

  predicate IsDigit(c: char)
  {
    '0' <= c <= '9'
  }

  function DigitValue(c: char): nat
    requires IsDigit(c)
  {
    c as int - '0' as int
  }

  function DigitChar(d: nat): (c: char)
    requires d < 10
    ensures IsDigit(c) && DigitValue(c) == d
  {
    ('0' as int + d) as char
  }

  // ---- parse_segment_number --------------------------------------------------------

  /** `_S\d\d10` at index i: the token whose two digits are the segment number. */
  predicate TokenAt(s: string, i: nat)
  {
    i + 6 <= |s| && s[i] == '_' && s[i + 1] == 'S' && IsDigit(s[i + 2]) && IsDigit(s[i + 3])
    && s[i + 4] == '1' && s[i + 5] == '0'
  }

  /** The number written by the two digits of the token at index i. */
  function TokenValue(s: string, i: nat): nat
    requires TokenAt(s, i)
  {
    10 * DigitValue(s[i + 2]) + DigitValue(s[i + 3])
  }

  /** re.search: the leftmost token at or after `from`. */
  function TokenIndex(s: string, from: nat): (r: Option<nat>)
    ensures r.Some? ==>
              from <= r.value && TokenAt(s, r.value)
              && forall j :: from <= j < r.value ==> !TokenAt(s, j)
    ensures r.None? ==> forall j :: from <= j ==> !TokenAt(s, j)
    decreases |s| - from
  {
    if from + 6 > |s| then None
    else if TokenAt(s, from) then Some(from)
    else TokenIndex(s, from + 1)
  }

  /** parse_segment_number: the two digits of the leftmost token, or None
      when the path has none. */
  function ParseSegmentNumber(path: string): (r: Option<nat>)
    ensures r.None? <==> forall i :: !TokenAt(path, i)
    ensures r.Some? ==>
              r.value < 100
              && exists i: nat :: TokenAt(path, i) && (forall j :: 0 <= j < i ==> !TokenAt(path, j))
                             && r.value == TokenValue(path, i)
  {
    match TokenIndex(path, 0)
    case None => None
    case Some(i) => Some(TokenValue(path, i))
  }

  // ---- find_all_segments -----------------------------------------------------------

  /** `_S\d{4}` at index i: what the template rewrites. Every token is one. */
  predicate SlotAt(s: string, i: nat)
  {
    i + 6 <= |s| && s[i] == '_' && s[i + 1] == 'S'
    && IsDigit(s[i + 2]) && IsDigit(s[i + 3]) && IsDigit(s[i + 4]) && IsDigit(s[i + 5])
  }

  /** The number of slots re.sub rewrites from index `from` on, scanning
      left to right and resuming after each slot: the number of `{:02d}`
      fields the template gets. */
  function Slots(s: string, from: nat): nat
    decreases |s| - from
  {
    if from >= |s| then 0
    else if SlotAt(s, from) then 1 + Slots(s, from + 6)
    else Slots(s, from + 1)
  }

  /** Characters without a slot do not change the count. */
  lemma {:induction false} SlotsSkip(s: string, from: nat, q: nat)
    requires from <= q && forall j :: from <= j < q ==> !SlotAt(s, j)
    ensures Slots(s, from) == Slots(s, q)
    decreases q - from
  {
    if from < q && from < |s| {
      SlotsSkip(s, from + 1, q);
    }
  }

  /** At least one field iff some slot starts at or after `from`. */
  lemma {:induction false} SlotsPositive(s: string, from: nat)
    ensures Slots(s, from) >= 1 <==> exists j :: from <= j && SlotAt(s, j)
    decreases |s| - from
  {
    if from < |s| && !SlotAt(s, from) {
      SlotsPositive(s, from + 1);
      if exists j :: from <= j && SlotAt(s, j) {
        var j :| from <= j && SlotAt(s, j);
        assert from + 1 <= j;
      }
    }
  }

  /** At least two fields iff two slots that do not overlap start at or
      after `from`. */
  lemma {:induction false} SlotsTwo(s: string, from: nat)
    ensures Slots(s, from) >= 2 <==>
              exists q, q' :: from <= q && q + 6 <= q' && SlotAt(s, q) && SlotAt(s, q')
    decreases |s| - from
  {
    if from < |s| {
      if SlotAt(s, from) {
        SlotsPositive(s, from + 6);
        if Slots(s, from) >= 2 {
          var q' :| from + 6 <= q' && SlotAt(s, q');
          assert from <= from && from + 6 <= q' && SlotAt(s, from) && SlotAt(s, q');
        }
        if exists q, q' :: from <= q && q + 6 <= q' && SlotAt(s, q) && SlotAt(s, q') {
          var q, q' :| from <= q && q + 6 <= q' && SlotAt(s, q) && SlotAt(s, q');
          assert from + 6 <= q';
        }
      } else {
        SlotsTwo(s, from + 1);
        if exists q, q' :: from <= q && q + 6 <= q' && SlotAt(s, q) && SlotAt(s, q') {
          var q, q' :| from <= q && q + 6 <= q' && SlotAt(s, q) && SlotAt(s, q');
          assert from + 1 <= q;
        }
      }
    }
  }

  /** '_S{:02d}10'.format(n). */
  function Replacement(n: nat): (r: string)
    requires n < 100
    ensures |r| == 6 && TokenAt(r, 0) && TokenValue(r, 0) == n
  {
    ['_', 'S', DigitChar(n / 10), DigitChar(n % 10), '1', '0']
  }

  /** re.sub(r'_S\d{4}', ...) from index `from` on, every field filled in
      with segment n. The rewriting keeps the length. */
  function Template(s: string, from: nat, n: nat): (t: string)
    requires n < 100
    ensures from <= |s| ==> |t| == |s| - from
    decreases |s| - from
  {
    if from >= |s| then []
    else if SlotAt(s, from) then Replacement(n) + Template(s, from + 6, n)
    else [s[from]] + Template(s, from + 1, n)
  }

  /** Text without a slot is copied unchanged. */
  lemma {:induction false} TemplateWithoutSlots(s: string, from: nat, n: nat)
    requires n < 100 && from <= |s|
    ensures Slots(s, from) == 0 ==> Template(s, from, n) == s[from..]
    decreases |s| - from
  {
    if from < |s| && Slots(s, from) == 0 {
      TemplateWithoutSlots(s, from + 1, n);
      assert s[from..] == [s[from]] + s[from + 1..];
    }
  }

  /** base_pattern.format(n): the path of segment n. With two or more
      fields and one argument, str.format raises IndexError. */
  function Candidate(path: string, n: nat): (r: Result<string, LoadError>)
    requires n < 100
    ensures r.Failure? <==> Slots(path, 0) >= 2
    ensures r.Failure? ==> r.error == FormatIndexError
    ensures r.Success? ==> |r.value| == |path|
    ensures Slots(path, 0) == 0 ==> r == Success(path)
  {
    if Slots(path, 0) >= 2 then Failure(FormatIndexError)
    else
      TemplateWithoutSlots(path, 0, n);
      Success(Template(path, 0, n))
  }

  /** The characters before the first slot are copied unchanged. */
  lemma {:induction false} TemplateUpToSlot(s: string, from: nat, q: nat, n: nat)
    requires n < 100 && from <= q && SlotAt(s, q)
    requires forall j :: from <= j < q ==> !SlotAt(s, j)
    ensures Template(s, from, n) == s[from..q] + Replacement(n) + Template(s, q + 6, n)
    decreases q - from
  {
    if from < q {
      var tail := Replacement(n) + Template(s, q + 6, n);
      TemplateUpToSlot(s, from + 1, q, n);
      assert !SlotAt(s, from);
      assert s[from..q] == [s[from]] + s[from + 1..q];
      calc {
        Template(s, from, n);
        [s[from]] + Template(s, from + 1, n);
        [s[from]] + (s[from + 1..q] + tail);
        ([s[from]] + s[from + 1..q]) + tail;
      }
    }
  }

  /** The template of a path whose first slot is at q holds the rewritten
      slot as its first token. */
  lemma FilledParsesBack(path: string, n: nat, q: nat)
    requires n < 100 && SlotAt(path, q)
    requires forall j :: 0 <= j < q ==> !SlotAt(path, j)
    ensures ParseSegmentNumber(Template(path, 0, n)) == Some(n)
  {
    TemplateUpToSlot(path, 0, q, n);
    var c := Template(path, 0, n);
    var rep := Replacement(n);
    assert c == path[..q] + rep + Template(path, q + 6, n);
    assert forall j :: 0 <= j < q ==> c[j] == path[j];
    assert forall j :: 0 <= j < 6 ==> c[q + j] == rep[j];
    forall j | 0 <= j < q
      ensures !TokenAt(c, j)
    {
      if j + 6 <= q {
        assert !SlotAt(path, j);
      } else {
        assert c[q] == '_';
      }
    }
    assert TokenAt(c, q);
    assert TokenIndex(c, 0) == Some(q);
    assert TokenValue(c, q) == TokenValue(rep, 0);
  }

  /** For a path whose first slot is at q, the candidate for segment n
      exists iff no other slot follows, and then it carries the number it
      was built for: the token parse_segment_number finds in it is the
      rewritten slot. */
  lemma CandidateParsesBack(path: string, n: nat, q: nat)
    requires n < 100 && SlotAt(path, q)
    requires forall j :: 0 <= j < q ==> !SlotAt(path, j)
    ensures Candidate(path, n).Success? <==> forall j :: q + 6 <= j ==> !SlotAt(path, j)
    ensures Candidate(path, n).Success? ==> ParseSegmentNumber(Candidate(path, n).value) == Some(n)
  {
    SlotsSkip(path, 0, q);
    assert Slots(path, q) == 1 + Slots(path, q + 6);
    SlotsPositive(path, q + 6);
    FilledParsesBack(path, n, q);
  }

  /** The one path segment n contributes, if any: the candidate itself when
      it exists, otherwise, for a ".bz2" candidate, the candidate without
      ".bz2" when that exists. */
  function Choice(candidate: string, present: string -> bool): (r: Option<string>)
    ensures r.Some? ==> present(r.value)
    ensures r.Some? && r.value != candidate ==>
              !present(candidate) && r.value + BZ2_SUFFIX == candidate
    ensures r.None? <==>
              !present(candidate)
              && !(EndsWith(candidate, BZ2_SUFFIX)
                   && present(candidate[..|candidate| - |BZ2_SUFFIX|]))
  {
    if present(candidate) then Some(candidate)
    else if EndsWith(candidate, BZ2_SUFFIX) then
      var dat := candidate[..|candidate| - |BZ2_SUFFIX|];
      assert dat + BZ2_SUFFIX == candidate;
      if present(dat) then Some(dat) else None
    else None
  }

  /** The paths found for segments 1 to k, in segment order, or the
      IndexError of the first format call. */
  function Discovered(path: string, present: string -> bool, k: nat): (r: Result<seq<string>, LoadError>)
    requires k < 100
    ensures r.Failure? <==> k > 0 && Slots(path, 0) >= 2
    ensures r.Failure? ==> r.error == FormatIndexError
    ensures r.Success? ==> |r.value| <= k
  {
    if k == 0 then Success([])
    else
      match Discovered(path, present, k - 1)
      case Failure(e) => Failure(e)
      case Success(found) =>
        match Candidate(path, k)
        case Failure(e) => Failure(e)
        case Success(c) =>
          Success(found + match Choice(c, present)
                          case None => []
                          case Some(p) => [p])
  }

  /** The numbers of the segments found among 1 to k, in order. */
  function FoundNumbers(path: string, present: string -> bool, k: nat): seq<nat>
    requires k < 100
  {
    if k == 0 then []
    else
      FoundNumbers(path, present, k - 1)
        + if Choice(Template(path, 0, k), present).Some? then [k] else []
  }

  /** One more segment: its candidate is the filled template, and it adds
      its path, if any, to the paths and its number to the numbers. */
  lemma DiscoveredStep(path: string, present: string -> bool, k: nat)
    requires 0 < k < 100 && Discovered(path, present, k).Success?
    ensures Candidate(path, k) == Success(Template(path, 0, k))
    ensures var choice := Choice(Template(path, 0, k), present);
      Discovered(path, present, k).value
        == Discovered(path, present, k - 1).value + (if choice.Some? then [choice.value] else [])
      && FoundNumbers(path, present, k)
        == FoundNumbers(path, present, k - 1) + (if choice.Some? then [k] else [])
  {
  }

  /** Discovery yields at most one path per segment, in ascending segment
      order, exactly for the segments whose candidate (or its DAT form)
      exists. */
  lemma {:induction false} DiscoveredInOrder(path: string, present: string -> bool, k: nat)
    requires k < 100 && Discovered(path, present, k).Success?
    ensures var found := FoundNumbers(path, present, k);
      var paths := Discovered(path, present, k).value;
      |paths| == |found| <= k
      && (forall i :: 0 <= i < |found| ==> 1 <= found[i] <= k)
      && (forall i, j :: 0 <= i < j < |found| ==> found[i] < found[j])
      && (forall i :: 0 <= i < |found| ==>
            Candidate(path, found[i]).Success?
            && Choice(Candidate(path, found[i]).value, present).Some?
            && paths[i] == Choice(Candidate(path, found[i]).value, present).value)
      && (forall n :: 1 <= n <= k ==>
            (n in found <==> Choice(Candidate(path, n).value, present).Some?))
  {
    if k > 0 {
      DiscoveredInOrder(path, present, k - 1);
      DiscoveredStep(path, present, k);
    }
  }

  /** find_all_segments: try segments 1 to 10 in turn. */
  method FindAllSegments(path: string, present: string -> bool) returns (r: Result<seq<string>, LoadError>)
    ensures r == Discovered(path, present, 10)
  {
    var segments := [];
    for n := 1 to 11
      invariant Discovered(path, present, n - 1) == Success(segments)
    {
      var candidate := Candidate(path, n);
      if candidate.Failure? {
        return Failure(candidate.error);
      }
      var segmentPath := candidate.value;
      ghost var choice := Choice(segmentPath, present);
      assert Discovered(path, present, n) ==
             Success(segments + if choice.Some? then [choice.value] else []);
      if present(segmentPath) {
        assert choice == Some(segmentPath);
        segments := segments + [segmentPath];
      } else if EndsWith(segmentPath, BZ2_SUFFIX) {
        var dat := segmentPath[..|segmentPath| - |BZ2_SUFFIX|];
        if present(dat) {
          assert choice == Some(dat);
          segments := segments + [dat];
        } else {
          assert choice == None && segments + [] == segments;
        }
      } else {
        assert choice == None && segments + [] == segments;
      }
    }
    r := Success(segments);
  }

  // ---- merge_segments ----------------------------------------------------------------

  datatype LoadError =
    | Unreadable(path: string, error: HsdError)          // hsd_read raised on this file
    | NoSegments                                          // merge_segments of an empty list
    | WidthMismatch(index: nat, width: nat, expected: nat) // segment `index` (from 1) is not as wide as segment 1
    | FormatIndexError                                    // base_pattern.format(seg_num) with two or more fields

  /** The sum of the tiles' heights. */
  function TotalHeight(tiles: seq<HSData>): nat
  {
    if tiles == [] then 0 else TotalHeight(tiles[..|tiles| - 1]) + tiles[|tiles| - 1].height
  }

  /** np.concatenate of the tiles' samples, in list order. */
  function ConcatData(tiles: seq<HSData>): seq<u16>
  {
    if tiles == [] then [] else ConcatData(tiles[..|tiles| - 1]) + tiles[|tiles| - 1].data
  }

  /** The merged record: width and metadata of the first tile, the summed
      height, the stacked samples, no temperatures. */
  function Stitch(tiles: seq<HSData>): HSData
    requires |tiles| > 0
  {
    var base := tiles[0];
    HSData(base.satelliteName, base.width, TotalHeight(tiles), base.band, base.wavelength,
           base.bitNum, base.slope, base.intc, base.c0, base.c1, base.c2, base.c, base.h, base.k,
           ConcatData(tiles), None)
  }

  /** One step of the loop over the files: the k-th file (from 1), read
      as `read`, is added to the tiles loaded so far, or stops the loop. */
  function LoadStep(prev: Result<seq<HSData>, LoadError>, file: string,
                    read: Result<HSData, HsdError>, k: nat): (r: Result<seq<HSData>, LoadError>)
    ensures prev.Success? && r.Success? ==>
              read.Success? && r.value == prev.value + [read.value]
  {
    match prev
    case Failure(e) => Failure(e)
    case Success(tiles) =>
      match read
      case Failure(e) => Failure(Unreadable(file, e))
      case Success(t) =>
        if k > 1 && |tiles| > 0 && t.width != tiles[0].width then
          Failure(WidthMismatch(k, t.width, tiles[0].width))
        else Success(tiles + [t])
  }

  /** hsd_read(path, debug=False), the call merge_segments makes per file. */
  function TileReader(fs: FileSystem): string -> Result<HSData, HsdError>
  {
    path => ReadTile(fs, path, false)
  }

  /** Every tile the reader returns has width*height samples. */
  ghost predicate ShapedReader(read: string -> Result<HSData, HsdError>)
  {
    forall path :: read(path).Success? ==>
      |read(path).value.data| == read(path).value.width * read(path).value.height
  }

  lemma TileReaderShaped(fs: FileSystem)
    ensures ShapedReader(TileReader(fs))
  {
  }

  /** Reading the first k files in order, each checked against the first's
      width as soon as it is read. */
  function Loaded(files: seq<string>, read: string -> Result<HSData, HsdError>, k: nat)
    : (r: Result<seq<HSData>, LoadError>)
    requires k <= |files|
    ensures r.Success? ==> |r.value| == k
    ensures r.Failure? ==> r.error.Unreadable? || r.error.WidthMismatch?
  {
    if k == 0 then Success([])
    else LoadStep(Loaded(files, read, k - 1), files[k - 1], read(files[k - 1]), k)
  }

  /** Each loaded tile is the decoding of its file, and all are as wide as
      the first. */
  lemma {:induction false} LoadedTiles(files: seq<string>, read: string -> Result<HSData, HsdError>, k: nat)
    requires k <= |files| && Loaded(files, read, k).Success?
    ensures var tiles := Loaded(files, read, k).value;
      forall i :: 0 <= i < k ==> read(files[i]) == Success(tiles[i]) && tiles[i].width == tiles[0].width
  {
    if k > 0 {
      LoadedTiles(files, read, k - 1);
    }
  }

  /** Once a file has stopped the loop, no later file changes the outcome. */
  lemma {:induction false} LoadedFailureStays(files: seq<string>, read: string -> Result<HSData, HsdError>, k: nat, m: nat)
    requires k <= m <= |files| && Loaded(files, read, k).Failure?
    ensures Loaded(files, read, m) == Loaded(files, read, k)
  {
    if m > k {
      LoadedFailureStays(files, read, k, m - 1);
    }
  }

  /** merge_segments' result for a list of files. */
  function Merge(files: seq<string>, read: string -> Result<HSData, HsdError>): (r: Result<HSData, LoadError>)
    ensures r == Failure(NoSegments) <==> files == []
    ensures r.Success? ==> r.value.temp.None?
  {
    if files == [] then Failure(NoSegments)
    else
      match Loaded(files, read, |files|)
      case Failure(e) => Failure(e)
      case Success(tiles) => Success(Stitch(tiles))
  }

  /** merge_segments: read each file, check its width, add up the heights,
      then stack the samples under the first tile's metadata. `read` is the
      per-file hsd_read(path, debug=False); read_hsd_full passes
      TileReader of its file system. */
  method MergeSegments(files: seq<string>, read: string -> Result<HSData, HsdError>) returns (r: Result<HSData, LoadError>)
    ensures r == Merge(files, read)
  {
    if files == [] {
      return Failure(NoSegments);
    }
    var segments: seq<HSData> := [];
    var totalHeight := 0;
    var width: Option<nat> := None;
    for i := 0 to |files|
      invariant Loaded(files, read, i) == Success(segments)
      invariant totalHeight == TotalHeight(segments)
      invariant i == 0 <==> width.None?
      invariant i > 0 ==> width == Some(segments[0].width)
    {
      var seg := read(files[i]);
      assert Loaded(files, read, i + 1) == LoadStep(Success(segments), files[i], seg, i + 1);
      if seg.Failure? {
        LoadedFailureStays(files, read, i + 1, |files|);
        return Failure(Unreadable(files[i], seg.error));
      }
      var tile := seg.value;
      var previous := segments;
      segments := segments + [tile];
      if width.None? {
        width := Some(tile.width);
      } else if width.value != tile.width {
        LoadedFailureStays(files, read, i + 1, |files|);
        return Failure(WidthMismatch(i + 1, tile.width, width.value));
      }
      assert segments[..|segments| - 1] == previous;
      totalHeight := totalHeight + tile.height;
    }
    var base := segments[0];
    r := Success(HSData(base.satelliteName, width.value, totalHeight, base.band, base.wavelength,
                        base.bitNum, base.slope, base.intc, base.c0, base.c1, base.c2, base.c,
                        base.h, base.k, ConcatData(segments), None));
  }

  // ---- Properties of the merge --------------------------------------------------------

  /** An empty list is refused. */
  lemma MergeOfNothing(read: string -> Result<HSData, HsdError>)
    ensures Merge([], read) == Failure(NoSegments)
  {
  }

  /** A merged record has the first file's width and metadata, the summed
      height and the samples of all files in list order. */
  lemma MergedRecord(files: seq<string>, read: string -> Result<HSData, HsdError>)
    requires Merge(files, read).Success?
    ensures var m := Merge(files, read).value;
      var tiles := Loaded(files, read, |files|).value;
      |tiles| == |files| > 0
      && (forall i :: 0 <= i < |files| ==> read(files[i]) == Success(tiles[i]))
      && m.width == tiles[0].width && m.height == TotalHeight(tiles)
      && m.data == ConcatData(tiles) && m.temp.None?
      && m.satelliteName == tiles[0].satelliteName && m.band == tiles[0].band
      && m.wavelength == tiles[0].wavelength && m.bitNum == tiles[0].bitNum
      && m.slope == tiles[0].slope && m.intc == tiles[0].intc
      && m.c0 == tiles[0].c0 && m.c1 == tiles[0].c1 && m.c2 == tiles[0].c2
      && m.c == tiles[0].c && m.h == tiles[0].h && m.k == tiles[0].k
      && forall i :: 0 <= i < |files| ==> tiles[i].width == m.width
  {
    LoadedTiles(files, read, |files|);
  }

  /** Tile j's samples start after those of the tiles before it. */
  lemma {:induction false} MergedSampleLayout(tiles: seq<HSData>, j: nat, t: nat)
    requires j < |tiles| && t < |tiles[j].data|
    ensures |ConcatData(tiles[..j])| + t < |ConcatData(tiles)|
    ensures ConcatData(tiles)[|ConcatData(tiles[..j])| + t] == tiles[j].data[t]
  {
    var init := tiles[..|tiles| - 1];
    if j == |tiles| - 1 {
      assert tiles[..j] == init;
    } else {
      assert init[..j] == tiles[..j];
      MergedSampleLayout(init, j, t);
    }
  }

  /** Tiles of one width w, each with w*height samples, stack into
      w * (total height) samples. */
  lemma {:induction false} MergedShape(tiles: seq<HSData>, w: nat)
    requires forall i :: 0 <= i < |tiles| ==>
               tiles[i].width == w && |tiles[i].data| == w * tiles[i].height
    ensures |ConcatData(tiles)| == w * TotalHeight(tiles)
  {
    if tiles != [] {
      var init := tiles[..|tiles| - 1];
      MergedShape(init, w);
      var last := tiles[|tiles| - 1];
      assert |last.data| == w * last.height;
      assert |ConcatData(tiles)| == |ConcatData(init)| + |last.data|;
      assert TotalHeight(tiles) == TotalHeight(init) + last.height;
      assert w * (TotalHeight(init) + last.height) == w * TotalHeight(init) + w * last.height;
    }
  }

  /** A merged record of decoded files is a well-shaped tile. */
  lemma MergedRecordShape(files: seq<string>, read: string -> Result<HSData, HsdError>)
    requires ShapedReader(read) && Merge(files, read).Success?
    ensures var m := Merge(files, read).value; |m.data| == m.width * m.height
  {
    var tiles := Loaded(files, read, |files|).value;
    LoadedTiles(files, read, |files|);
    forall i | 0 <= i < |tiles|
      ensures tiles[i].width == tiles[0].width && |tiles[i].data| == tiles[0].width * tiles[i].height
    {
      assert read(files[i]) == Success(tiles[i]);
    }
    MergedShape(tiles, tiles[0].width);
  }

  /** A width mismatch names the first segment, counted from 1, whose width
      differs from segment 1's; every file before it was read and was as
      wide as segment 1. */
  lemma {:induction false} FirstMismatchReported(files: seq<string>, read: string -> Result<HSData, HsdError>, k: nat)
    requires k <= |files| && Loaded(files, read, k).Failure? && Loaded(files, read, k).error.WidthMismatch?
    ensures var e := Loaded(files, read, k).error;
      2 <= e.index <= k
      && (forall i :: 0 <= i < e.index ==> read(files[i]).Success?)
      && e.expected == read(files[0]).value.width
      && e.width == read(files[e.index - 1]).value.width != e.expected
      && forall i :: 0 <= i < e.index - 1 ==> read(files[i]).value.width == e.expected
  {
    if Loaded(files, read, k - 1).Failure? {
      FirstMismatchReported(files, read, k - 1);
    } else {
      LoadedTiles(files, read, k - 1);
    }
  }

  // ---- read_hsd_full ---------------------------------------------------------------------

  /** What read_hsd_full does with a path: decode it alone, merge the
      segments found, or stop with the error segment discovery raised. */
  datatype ReadPlan = SingleFile | MergeAll(segments: seq<string>) | Abort(error: LoadError)

  function PlanRead(path: string, present: string -> bool, autoMerge: bool): (p: ReadPlan)
    ensures p.Abort? <==>
              autoMerge && ParseSegmentNumber(path).Some? && Slots(path, 0) >= 2
    ensures p.Abort? ==> p.error == FormatIndexError
    ensures p.MergeAll? <==>
              autoMerge && ParseSegmentNumber(path).Some? && Discovered(path, present, 10).Success?
              && |Discovered(path, present, 10).value| >= 2
    ensures p.MergeAll? ==> Success(p.segments) == Discovered(path, present, 10)
  {
    if !autoMerge || ParseSegmentNumber(path).None? then SingleFile
    else
      match Discovered(path, present, 10)
      case Failure(e) => Abort(e)
      case Success(segments) => if |segments| < 2 then SingleFile else MergeAll(segments)
  }

  /** read_hsd_full's result: the original path decoded alone (with the
      caller's debug flag), the merge of the segments found, or the error
      of segment discovery. Every record it returns has one sample per
      pixel. */
  function FullRead(fs: FileSystem, path: string, debug: bool, autoMerge: bool): (r: Result<HSData, LoadError>)
    ensures r.Success? ==> |r.value.data| == r.value.width * r.value.height
  {
    match PlanRead(path, fs.present, autoMerge)
    case SingleFile =>
      (match ReadTile(fs, path, debug)
       case Failure(e) => Failure(Unreadable(path, e))
       case Success(t) => Success(t))
    case MergeAll(segments) =>
      var m := Merge(segments, TileReader(fs));
      if m.Failure? then m
      else
        TileReaderShaped(fs);
        MergedRecordShape(segments, TileReader(fs));
        m
    case Abort(e) => Failure(e)
  }

  /** With a single segment found, the original path is read, not the
      segment discovery found. */
  lemma OneSegmentReadsOriginal(fs: FileSystem, path: string, debug: bool)
    requires Discovered(path, fs.present, 10).Success? && |Discovered(path, fs.present, 10).value| == 1
    ensures FullRead(fs, path, debug, true).Success? <==> ReadTile(fs, path, debug).Success?
    ensures FullRead(fs, path, debug, true).Success? ==>
              FullRead(fs, path, debug, true).value == ReadTile(fs, path, debug).value
  {
  }

  /** A segmented path with two slots, such as one whose directory name
      also matches `_S\d{4}`, makes read_hsd_full raise IndexError whatever
      the file system holds. */
  lemma MultiSlotPathRaises(fs: FileSystem, path: string, debug: bool, q: nat, q': nat)
    requires ParseSegmentNumber(path).Some?
    requires q + 6 <= q' && SlotAt(path, q) && SlotAt(path, q')
    ensures FullRead(fs, path, debug, true) == Failure(FormatIndexError)
  {
    SlotsTwo(path, 0);
  }

  /** read_hsd_full. */
  method ReadHsdFull(fs: FileSystem, path: string, debug: bool, autoMerge: bool)
    returns (r: Result<HSData, LoadError>)
    ensures r == FullRead(fs, path, debug, autoMerge)
  {
    var segments: seq<string> := [];
    var merge := false;
    if autoMerge && ParseSegmentNumber(path).Some? {
      var found := FindAllSegments(path, fs.present);
      if found.Failure? {
        return Failure(found.error);
      }
      segments := found.value;
      merge := |segments| >= 2;
    }
    if merge {
      r := MergeSegments(segments, TileReader(fs));
    } else {
      var t := HsdReadFile(fs, path, debug);
      r := if t.Failure? then Failure(Unreadable(path, t.error)) else Success(t.value);
    }
  }
}
