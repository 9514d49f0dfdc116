/** Overlapping detection windows over a large text. */
module Windows {
  import opened Bytes

  const CHUNK_THRESHOLD := 65536
  const CHUNK_SIZE := 32768
  const CHUNK_OVERLAP := 4096

  datatype Window = Window(start: int, end: int)

  predicate IsBoundaryByte(b: Byte) {
    b == 32 || b == 10 || b == 9 || b == 13
  }

  /** Any byte but a UTF-8 continuation byte. */
  predicate RuneStart(b: Byte) {
    !(128 <= b < 192)
  }

  ghost predicate NoBoundary(text: Text, lo: int, hi: int)
    requires 0 <= lo && hi <= |text|
  {
    forall k :: lo <= k < hi ==> !IsBoundaryByte(text[k])
  }

  // ---------------------------------------------------------------- the scans

  /** Index of the last whitespace byte in text[lo..hi], or -1. */
  function LastBoundary(text: Text, lo: int, hi: int): (r: int)
    requires 0 <= lo && hi <= |text|
    ensures r == -1 || (lo <= r < hi && IsBoundaryByte(text[r]))
    ensures NoBoundary(text, if r == -1 then lo else r + 1, hi)
    decreases hi - lo
  {
    if hi <= lo then -1
    else if IsBoundaryByte(text[hi - 1]) then hi - 1
    else LastBoundary(text, lo, hi - 1)
  }

  /** Index of the first whitespace byte in text[lo..hi], or -1. */
  function FirstBoundary(text: Text, lo: int, hi: int): (r: int)
    requires 0 <= lo && hi <= |text|
    ensures r == -1 || (lo <= r < hi && IsBoundaryByte(text[r]))
    ensures NoBoundary(text, lo, if r == -1 then hi else r)
    decreases hi - lo
  {
    if hi <= lo then -1
    else if IsBoundaryByte(text[lo]) then lo
    else FirstBoundary(text, lo + 1, hi)
  }

  method IndexLastBoundaryByte(text: Text, lo: int, hi: int) returns (r: int)
    requires 0 <= lo && hi <= |text|
    ensures r == LastBoundary(text, lo, hi)
  {
    var i := hi;
    while i > lo
      invariant i <= hi
      invariant LastBoundary(text, lo, i) == LastBoundary(text, lo, hi)
    {
      if IsBoundaryByte(text[i - 1]) {
        return i - 1;
      }
      i := i - 1;
    }
    return -1;
  }

  method IndexFirstBoundaryByte(text: Text, lo: int, hi: int) returns (r: int)
    requires 0 <= lo && hi <= |text|
    ensures r == FirstBoundary(text, lo, hi)
  {
    var i := lo;
    while i < hi
      invariant lo <= i
      invariant FirstBoundary(text, i, hi) == FirstBoundary(text, lo, hi)
    {
      if IsBoundaryByte(text[i]) {
        return i;
      }
      i := i + 1;
    }
    return -1;
  }

  // ---------------------------------------------------------------- extending a core

  function RuneDown(text: Text, lo: int): (r: int)
    requires 0 <= lo < |text|
    ensures 0 <= r <= lo && (r == 0 || RuneStart(text[r]))
  {
    if lo > 0 && !RuneStart(text[lo]) then RuneDown(text, lo - 1) else lo
  }

  function RuneUp(text: Text, hi: int): (r: int)
    requires 0 <= hi <= |text|
    ensures hi <= r <= |text| && (r == |text| || RuneStart(text[r]))
    decreases |text| - hi
  {
    if hi < |text| && !RuneStart(text[hi]) then RuneUp(text, hi + 1) else hi
  }

  /** About `n` bytes before `pos`, just after whitespace where there is any. */
  function Before(text: Text, pos: int, n: int): (r: int)
    requires 0 <= pos <= |text| && n > 0
    ensures 0 <= r <= pos
    ensures r == 0 || r <= pos - n + 1
    ensures r == 0 || r == |text| || RuneStart(text[r]) || IsBoundaryByte(text[r - 1])
  {
    if pos - n < 0 then 0
    else
      var i := LastBoundary(text, 0, pos - n + 1);
      if i >= 0 then i + 1 else RuneDown(text, pos - n)
  }

  /** About `n` bytes after `pos`, just before whitespace where there is any. */
  function After(text: Text, pos: int, n: int): (r: int)
    requires 0 <= pos <= |text| && n > 0
    ensures pos <= r <= |text|
    ensures r == |text| || r >= pos + n
    ensures r == |text| || RuneStart(text[r])
  {
    if pos + n > |text| then |text|
    else
      var i := FirstBoundary(text, pos + n, |text|);
      if i >= 0 then i else RuneUp(text, pos + n)
  }

  lemma {:induction false} RuneDownNearest(text: Text, lo: int)
    requires 0 <= lo < |text|
    ensures forall k :: RuneDown(text, lo) < k <= lo ==> !RuneStart(text[k])
  {
    if lo > 0 && !RuneStart(text[lo]) {
      RuneDownNearest(text, lo - 1);
    }
  }

  lemma {:induction false} RuneUpNearest(text: Text, hi: int)
    requires 0 <= hi <= |text|
    ensures forall k :: hi <= k < RuneUp(text, hi) ==> !RuneStart(text[k])
    decreases |text| - hi
  {
    if hi < |text| && !RuneStart(text[hi]) {
      RuneUpNearest(text, hi + 1);
    }
  }

  /** Where the extended start lies: at the text start when there are fewer than `n` bytes; else
      just behind the last whitespace up to `n` bytes before the core; without any, at the nearest
      rune start there. */
  lemma BeforeIsNearest(text: Text, pos: int, n: int)
    requires 0 <= pos <= |text| && 0 < n
    ensures var r := Before(text, pos, n);
            if pos < n then r == 0
            else if NoBoundary(text, 0, pos - n + 1) then
              && r <= pos - n && (r == 0 || RuneStart(text[r]))
              && forall k :: r < k <= pos - n ==> !RuneStart(text[k])
            else 0 < r <= pos - n + 1 && IsBoundaryByte(text[r - 1]) && NoBoundary(text, r, pos - n + 1)
  {
    if pos >= n {
      RuneDownNearest(text, pos - n);
    }
  }

  /** Where the extended end lies: at the text end when there are fewer than `n` bytes; else at the
      first whitespace from `n` bytes behind the core; without any, at the nearest rune start there. */
  lemma AfterIsNearest(text: Text, pos: int, n: int)
    requires 0 <= pos <= |text| && 0 < n
    ensures var r := After(text, pos, n);
            if pos + n > |text| then r == |text|
            else if NoBoundary(text, pos + n, |text|) then
              && pos + n <= r && (r == |text| || RuneStart(text[r]))
              && forall k :: pos + n <= k < r ==> !RuneStart(text[k])
            else pos + n <= r < |text| && IsBoundaryByte(text[r]) && NoBoundary(text, pos + n, r)
  {
    if pos + n <= |text| {
      RuneUpNearest(text, pos + n);
    }
  }

  method ExtendBefore(text: Text, pos: int, n: int) returns (r: int)
    requires 0 <= pos <= |text| && n > 0
    ensures r == Before(text, pos, n)
  {
    var lo := pos - n;
    if lo < 0 {
      return 0;
    }
    var i := IndexLastBoundaryByte(text, 0, lo + 1);
    if i >= 0 {
      return i + 1;
    }
    while lo > 0 && !RuneStart(text[lo])
      invariant 0 <= lo <= pos - n
      invariant RuneDown(text, lo) == RuneDown(text, pos - n)
    {
      lo := lo - 1;
    }
    return lo;
  }

  method ExtendAfter(text: Text, pos: int, n: int) returns (r: int)
    requires 0 <= pos <= |text| && n > 0
    ensures r == After(text, pos, n)
  {
    var hi := pos + n;
    if hi > |text| {
      return |text|;
    }
    var i := IndexFirstBoundaryByte(text, hi, |text|);
    if i >= 0 {
      return i;
    }
    while hi < |text| && !RuneStart(text[hi])
      invariant pos + n <= hi <= |text|
      invariant RuneUp(text, hi) == RuneUp(text, pos + n)
    {
      hi := hi + 1;
    }
    return hi;
  }

  // ---------------------------------------------------------------- core regions

  /** The cut after `pos`, or -1 when the rest of the text has no whitespace. */
  function NextCut(text: Text, pos: int): (cut: int)
    requires 0 <= pos && pos + CHUNK_SIZE < |text|
    ensures cut == -1 || pos < cut <= |text|
  {
    var i := LastBoundary(text, pos, pos + CHUNK_SIZE);
    if i >= 0 then i + 1
    else
      var j := FirstBoundary(text, pos + CHUNK_SIZE, |text|);
      if j >= 0 then j + 1 else -1
  }

  /** The interior cuts to the right of `pos`. */
  function Cuts(text: Text, pos: int): (cuts: seq<int>)
    requires 0 <= pos <= |text|
    ensures forall k :: 0 <= k < |cuts| ==> pos < cuts[k] <= |text|
    decreases |text| - pos
  {
    if pos + CHUNK_SIZE >= |text| || NextCut(text, pos) == -1 then []
    else [NextCut(text, pos)] + Cuts(text, NextCut(text, pos))
  }

  function Bounds(text: Text): (bounds: seq<int>)
    ensures |bounds| == |Cuts(text, 0)| + 2
    ensures forall k :: 0 <= k < |bounds| ==> 0 <= bounds[k] <= |text|
  {
    [0] + Cuts(text, 0) + [|text|]
  }

  method SearchCut(text: Text, pos: int) returns (cut: int)
    requires 0 <= pos && pos + CHUNK_SIZE < |text|
    ensures cut == NextCut(text, pos)
  {
    var target := pos + CHUNK_SIZE;
    cut := -1;
    var i := IndexLastBoundaryByte(text, pos, target);
    if i >= 0 {
      cut := i + 1;
    } else {
      i := IndexFirstBoundaryByte(text, target, |text|);
      if i >= 0 {
        cut := i + 1;
      }
    }
  }

  method CoreBoundaries(text: Text) returns (bounds: seq<int>)
    ensures bounds == Bounds(text)
  {
    bounds := [0];
    var pos := 0;
    while pos < |text|
      invariant 0 <= pos <= |text|
      invariant bounds + Cuts(text, pos) == [0] + Cuts(text, 0)
      decreases |text| - pos
    {
      if pos + CHUNK_SIZE >= |text| {
        break;
      }
      var cut := SearchCut(text, pos);
      if cut <= pos {
        break;
      }
      assert Cuts(text, pos) == [cut] + Cuts(text, cut);
      assert bounds + Cuts(text, pos) == (bounds + [cut]) + Cuts(text, cut);
      bounds := bounds + [cut];
      pos := cut;
    }
    assert Cuts(text, pos) == [];
    bounds := bounds + [|text|];
  }

  /** A core widened by the overlap on both sides. */
  function Extended(text: Text, lo: int, hi: int): Window
    requires 0 <= lo <= |text| && 0 <= hi <= |text|
  {
    Window(Before(text, lo, CHUNK_OVERLAP), After(text, hi, CHUNK_OVERLAP))
  }

  function WindowsOver(text: Text, bounds: seq<int>): (ws: seq<Window>)
    requires forall k :: 0 <= k < |bounds| ==> 0 <= bounds[k] <= |text|
    requires |bounds| >= 1
    ensures |ws| == |bounds| - 1
    ensures forall i {:trigger ws[i]} :: 0 <= i < |ws| ==> ws[i] == Extended(text, bounds[i], bounds[i + 1])
  {
    seq(|bounds| - 1, i requires 0 <= i < |bounds| - 1 => Extended(text, bounds[i], bounds[i + 1]))
  }

  function WindowsOf(text: Text): seq<Window> {
    if |text| <= CHUNK_SIZE + 2 * CHUNK_OVERLAP then [Window(0, |text|)]
    else WindowsOver(text, Bounds(text))
  }

  method MakeWindows(text: Text) returns (ws: seq<Window>)
    ensures ws == WindowsOf(text)
  {
    if |text| <= CHUNK_SIZE + 2 * CHUNK_OVERLAP {
      return [Window(0, |text|)];
    }
    var bounds := CoreBoundaries(text);
    ws := [];
    for i := 0 to |bounds| - 1
      invariant |ws| == i
      invariant forall j {:trigger ws[j]} :: 0 <= j < i ==> ws[j] == Extended(text, bounds[j], bounds[j + 1])
    {
      var w := Widen(text, bounds[i], bounds[i + 1]);
      ws := ws + [w];
    }
    assert ws == WindowsOver(text, bounds);
  }

  method Widen(text: Text, lo: int, hi: int) returns (w: Window)
    requires 0 <= lo <= |text| && 0 <= hi <= |text|
    ensures w == Extended(text, lo, hi)
  {
    var start := ExtendBefore(text, lo, CHUNK_OVERLAP);
    var end := ExtendAfter(text, hi, CHUNK_OVERLAP);
    w := Window(start, end);
  }

  // ---------------------------------------------------------------- tiling

  /** `cuts` continues from `pos`: strictly increasing, inside the text, each just after whitespace. */
  ghost predicate Tile(text: Text, pos: int, cuts: seq<int>) {
    && 0 <= pos && (forall k :: 0 <= k < |cuts| ==> pos < cuts[k] <= |text| && IsBoundaryByte(text[cuts[k] - 1]))
    && (forall j, k :: 0 <= j < k < |cuts| ==> cuts[j] < cuts[k])
  }

  lemma {:induction false} CutsTile(text: Text, pos: int)
    requires 0 <= pos <= |text|
    ensures Tile(text, pos, Cuts(text, pos))
    decreases |text| - pos
  {
    if pos + CHUNK_SIZE < |text| && NextCut(text, pos) != -1 {
      var c := NextCut(text, pos);
      CutsTile(text, c);
      assert IsBoundaryByte(text[c - 1]);
      TileFirst(text, pos, c, Cuts(text, c));
    }
  }

  lemma TileFirst(text: Text, pos: int, c: int, cuts: seq<int>)
    requires 0 <= pos < c <= |text| && IsBoundaryByte(text[c - 1]) && Tile(text, c, cuts)
    ensures Tile(text, pos, [c] + cuts)
  {}

  /** Two consecutive advances together exceed a chunk: the second cut lies beyond the reach
      of the first search, which took the last whitespace it saw. */
  lemma TwoCutsExceedChunk(text: Text, pos: int)
    requires 0 <= pos <= |text| && |Cuts(text, pos)| >= 2
    ensures Cuts(text, pos)[1] - pos > CHUNK_SIZE
  {
    var c1 := NextCut(text, pos);
    var c2 := NextCut(text, c1);
    assert Cuts(text, pos)[1] == Cuts(text, c1)[0] == c2;
    CutsTile(text, c1);
    assert IsBoundaryByte(text[c2 - 1]);
    var i := LastBoundary(text, pos, pos + CHUNK_SIZE);
    assert forall k :: c1 <= k < pos + CHUNK_SIZE ==> !IsBoundaryByte(text[k]);
  }

  lemma {:induction false} CutCount(text: Text, pos: int)
    requires 0 <= pos <= |text|
    ensures |Cuts(text, pos)| <= 2 * ((|text| - pos) / (CHUNK_SIZE + 1)) + 1
    decreases |text| - pos
  {
    if |Cuts(text, pos)| >= 2 {
      TwoCutsExceedChunk(text, pos);
      var c1 := NextCut(text, pos);
      var c2 := NextCut(text, c1);
      CutCount(text, c2);
      assert |Cuts(text, pos)| == 2 + |Cuts(text, c2)|;
      assert (|text| - pos) / (CHUNK_SIZE + 1) >= (|text| - c2 + CHUNK_SIZE + 1) / (CHUNK_SIZE + 1);
    }
  }

  /** The k-th window's core. */
  function CoreStart(text: Text, k: int): int
    requires 0 <= k < |WindowsOf(text)|
  {
    if |text| <= CHUNK_SIZE + 2 * CHUNK_OVERLAP then 0 else Bounds(text)[k]
  }

  function CoreEnd(text: Text, k: int): int
    requires 0 <= k < |WindowsOf(text)|
  {
    if |text| <= CHUNK_SIZE + 2 * CHUNK_OVERLAP then |text| else Bounds(text)[k + 1]
  }

  /** Core `k` starts where the one before it ends, just after a whitespace byte. */
  ghost predicate Joined(text: Text, k: int)
    requires 0 < k < |WindowsOf(text)|
  {
    && CoreStart(text, k - 1) < CoreEnd(text, k - 1) == CoreStart(text, k) <= |text|
    && 0 < CoreStart(text, k)
    && IsBoundaryByte(text[CoreStart(text, k) - 1])
  }

  lemma WindowPerCore(text: Text)
    ensures |WindowsOf(text)| == if |text| <= CHUNK_SIZE + 2 * CHUNK_OVERLAP then 1 else |Cuts(text, 0)| + 1
  {}

  lemma WindowCount(text: Text)
    ensures 1 <= |WindowsOf(text)| <= 2 * (|text| / (CHUNK_SIZE + 1)) + 2
  {
    WindowPerCore(text);
    CutCount(text, 0);
  }

  lemma BoundsStep(text: Text, k: int)
    requires 0 < k <= |Cuts(text, 0)|
    ensures 0 <= Bounds(text)[k - 1] < Bounds(text)[k] <= |text|
    ensures IsBoundaryByte(text[Bounds(text)[k] - 1])
  {
    CutsTile(text, 0);
    var c := Cuts(text, 0);
    assert Bounds(text)[k] == c[k - 1];
    assert Bounds(text)[k - 1] == if k == 1 then 0 else c[k - 2];
  }

  lemma CoresJoin(text: Text, k: int)
    requires 0 < k < |WindowsOf(text)|
    ensures Joined(text, k)
  {
    WindowPerCore(text);
    assert |text| > CHUNK_SIZE + 2 * CHUNK_OVERLAP && k <= |Cuts(text, 0)|;
    BoundsStep(text, k);
    assert CoreStart(text, k) == CoreEnd(text, k - 1) == Bounds(text)[k];
    assert CoreStart(text, k - 1) == Bounds(text)[k - 1];
  }

  /** The cores tile the text, every interior cut follows whitespace, only the last core can
      be empty, and there are at most 2 * (len / (chunkSize + 1)) + 2 windows. */
  lemma CoresTileText(text: Text)
    ensures 1 <= |WindowsOf(text)| <= 2 * (|text| / (CHUNK_SIZE + 1)) + 2
    ensures CoreStart(text, 0) == 0
    ensures CoreStart(text, |WindowsOf(text)| - 1) <= CoreEnd(text, |WindowsOf(text)| - 1) == |text|
    ensures forall k :: 0 < k < |WindowsOf(text)| ==> Joined(text, k)
  {
    WindowCount(text);
    forall k | 0 < k < |WindowsOf(text)| ensures Joined(text, k) {
      CoresJoin(text, k);
    }
  }

  /** Every window reaches around its core, inside the text. */
  lemma WindowAroundCore(text: Text, k: int)
    requires 0 <= k < |WindowsOf(text)|
    ensures 0 <= CoreStart(text, k) <= CoreEnd(text, k) <= |text|
    ensures var w := WindowsOf(text)[k];
            if |text| <= CHUNK_SIZE + 2 * CHUNK_OVERLAP then w == Window(0, |text|)
            else w == Extended(text, CoreStart(text, k), CoreEnd(text, k))
    ensures 0 <= WindowsOf(text)[k].start <= CoreStart(text, k)
    ensures CoreEnd(text, k) <= WindowsOf(text)[k].end <= |text|
  {
    if |text| > CHUNK_SIZE + 2 * CHUNK_OVERLAP {
      CoreInText(text, k);
    }
  }

  lemma CoreInText(text: Text, k: int)
    requires 0 <= k <= |Cuts(text, 0)|
    ensures 0 <= Bounds(text)[k] <= Bounds(text)[k + 1] <= |text|
  {
    if k < |Cuts(text, 0)| {
      BoundsStep(text, k + 1);
    } else if k > 0 {
      BoundsStep(text, k);
    }
  }

  lemma BoundsPair(text: Text, k: int)
    requires 0 <= k && k + 1 < |Cuts(text, 0)|
    ensures Bounds(text)[k + 2] - Bounds(text)[k] > CHUNK_SIZE
  {
    AdvancePairs(text, 0, k);
    var c := Cuts(text, 0);
    assert Bounds(text)[k + 2] == c[k + 1];
    assert Bounds(text)[k] == if k == 0 then 0 else c[k - 1];
  }

  /** Any two neighbouring cores, the last one aside, together exceed a chunk. */
  lemma TwoCoresExceedChunk(text: Text, k: int)
    requires 0 <= k && k + 2 < |WindowsOf(text)|
    ensures CoreEnd(text, k + 1) - CoreStart(text, k) > CHUNK_SIZE
  {
    WindowPerCore(text);
    BoundsPair(text, k);
  }

  lemma {:induction false} AdvancePairs(text: Text, pos: int, k: int)
    requires 0 <= pos <= |text| && 0 <= k < |Cuts(text, pos)| - 1
    ensures Cuts(text, pos)[k + 1] - (if k == 0 then pos else Cuts(text, pos)[k - 1]) > CHUNK_SIZE
    decreases k
  {
    if k == 0 {
      TwoCutsExceedChunk(text, pos);
    } else {
      AdvancePairs(text, NextCut(text, pos), k - 1);
    }
  }

  /** A core longer than a chunk is one unbroken run: no whitespace in its first chunkSize bytes. */
  lemma LongCoreIsUnbroken(text: Text, k: int)
    requires |text| > CHUNK_SIZE + 2 * CHUNK_OVERLAP && 0 <= k < |WindowsOf(text)|
    requires CoreEnd(text, k) - CoreStart(text, k) > CHUNK_SIZE
    ensures 0 <= CoreStart(text, k) && CoreStart(text, k) + CHUNK_SIZE <= |text|
    ensures NoBoundary(text, CoreStart(text, k), CoreStart(text, k) + CHUNK_SIZE)
  {
    CutsTile(text, 0);
    LongAdvance(text, 0, k);
  }

  lemma {:induction false} LongAdvance(text: Text, pos: int, k: int)
    requires 0 <= pos <= |text| && 0 <= k <= |Cuts(text, pos)|
    requires var b := [pos] + Cuts(text, pos) + [|text|]; b[k + 1] - b[k] > CHUNK_SIZE
    ensures var b := [pos] + Cuts(text, pos) + [|text|];
            0 <= b[k] && b[k] + CHUNK_SIZE <= |text| && NoBoundary(text, b[k], b[k] + CHUNK_SIZE)
    decreases k
  {
    if k > 0 {
      var c := NextCut(text, pos);
      assert [pos] + Cuts(text, pos) + [|text|] == [pos] + ([c] + Cuts(text, c) + [|text|]);
      LongAdvance(text, c, k - 1);
    }
  }

  // ---------------------------------------------------------------- coverage

  lemma CoreOf(text: Text, a: int) returns (k: int)
    requires 0 <= a < |text|
    ensures 0 <= k < |WindowsOf(text)| && CoreStart(text, k) <= a < CoreEnd(text, k)
  {
    CoresTileText(text);
    k := |WindowsOf(text)| - 1;
    while CoreStart(text, k) > a
      invariant 0 <= k < |WindowsOf(text)| && a < CoreEnd(text, k)
      decreases k
    {
      assert Joined(text, k);
      k := k - 1;
    }
  }

  /** Any range of at most chunkOverlap + 1 bytes lies wholly inside the window of the core it
      starts in, with room to spare on both sides unless that side is a text edge. */
  lemma CoverageWithMargin(text: Text, a: int, b: int, k: int)
    requires 0 <= a <= b <= |text| && b - a <= CHUNK_OVERLAP + 1
    requires 0 <= k < |WindowsOf(text)| && CoreStart(text, k) <= a < CoreEnd(text, k)
    ensures var w := WindowsOf(text)[k];
            && 0 <= w.start <= a && b <= w.end <= |text|
            && (w.start == 0 || a - w.start >= CHUNK_OVERLAP - 1)
            && (w.end == |text| || w.end - b >= CHUNK_OVERLAP + 1 - (b - a))
  {
    WindowAroundCore(text, k);
  }
}
