/** Well-formed UTF-8 (section 4 of RFC 3629), and why no window cuts a character in two. */
module Utf8 {
  import opened Bytes
  import opened Windows

  predicate Tail(b: Byte) {
    0x80 <= b <= 0xBF
  }

  /** Length of the well-formed character at the start of `s`, or 0 when there is none. */
  function CharLen(s: Text): (n: nat)
    ensures n <= |s| && n <= 4
  {
    if s == [] then 0
    else if s[0] <= 0x7F then 1
    else if |s| < 2 then 0
    else if 0xC2 <= s[0] <= 0xDF && Tail(s[1]) then 2
    else if |s| < 3 then 0
    else if ThreeHead(s[0], s[1]) && Tail(s[2]) then 3
    else if |s| < 4 then 0
    else if FourHead(s[0], s[1]) && Tail(s[2]) && Tail(s[3]) then 4
    else 0
  }

  predicate ThreeHead(a: Byte, b: Byte) {
    || (a == 0xE0 && 0xA0 <= b <= 0xBF)
    || (0xE1 <= a <= 0xEC && Tail(b))
    || (a == 0xED && 0x80 <= b <= 0x9F)
    || (0xEE <= a <= 0xEF && Tail(b))
  }

  predicate FourHead(a: Byte, b: Byte) {
    || (a == 0xF0 && 0x90 <= b <= 0xBF)
    || (0xF1 <= a <= 0xF3 && Tail(b))
    || (a == 0xF4 && 0x80 <= b <= 0x8F)
  }

  predicate Valid(s: Text)
    decreases |s|
  {
    s == [] || (CharLen(s) > 0 && Valid(s[CharLen(s)..]))
  }

  /** The position is between two characters, judged by one byte alone. */
  predicate RuneBoundary(s: Text, p: int) {
    0 <= p <= |s| && (p == 0 || p == |s| || RuneStart(s[p]))
  }

  lemma SameHead(s: Text, p: int)
    requires 0 < CharLen(s) <= p <= |s|
    ensures CharLen(s[..p]) == CharLen(s)
  {
    var t := s[..p];
    assert forall k :: 0 <= k < |t| ==> t[k] == s[k];
  }

  lemma InsideChar(s: Text, k: int)
    requires 0 < k < CharLen(s)
    ensures !RuneStart(s[k])
  {}

  /** Cutting valid text at a rune boundary leaves valid text on both sides. */
  lemma {:induction false} SplitValid(s: Text, p: int)
    requires Valid(s) && RuneBoundary(s, p)
    ensures Valid(s[..p]) && Valid(s[p..])
    decreases |s|
  {
    var n := CharLen(s);
    if p == 0 || p == |s| {
      assert s[..p] == if p == 0 then [] else s;
      assert s[p..] == if p == 0 then s else [];
    } else {
      assert n <= p by {
        if p < n {
          InsideChar(s, p);
        }
      }
      assert s[n..][p - n..] == s[p..];
      SplitValid(s[n..], p - n);
      SameHead(s, p);
      assert s[n..][..p - n] == s[..p][n..];
    }
  }

  /** After an ASCII byte of valid text a new character starts. */
  lemma {:induction false} AfterAscii(s: Text, i: int)
    requires Valid(s) && 0 <= i < |s| && s[i] <= 0x7F
    ensures RuneBoundary(s, i + 1)
    decreases |s|
  {
    SplitValid(s, i);
    var rest := s[i..];
    assert CharLen(rest) == 1;
    if i + 1 < |s| {
      assert CharLen(rest[1..]) > 0 && rest[1..][0] == s[i + 1];
    }
  }

  /** A slice of valid text between rune boundaries is valid. */
  lemma SliceValid(s: Text, lo: int, hi: int)
    requires Valid(s) && RuneBoundary(s, lo) && RuneBoundary(s, hi) && lo <= hi
    ensures Valid(s[lo..hi])
  {
    SplitValid(s, hi);
    if lo < hi {
      SplitValid(s[..hi], lo);
      assert s[..hi][lo..] == s[lo..hi];
    }
  }

  lemma BeforeOnRune(text: Text, pos: int, n: int)
    requires Valid(text) && 0 <= pos <= |text| && n > 0
    ensures RuneBoundary(text, Before(text, pos, n))
  {
    var r := Before(text, pos, n);
    if 0 < r < |text| && !RuneStart(text[r]) {
      AfterAscii(text, r - 1);
    }
  }

  /** No window of valid text cuts a character, not even in the fallbacks that find no
      whitespace: both its ends are rune boundaries and its slice is valid text. */
  lemma WindowsKeepUtf8(text: Text, k: int)
    requires Valid(text) && 0 <= k < |WindowsOf(text)|
    ensures var w := WindowsOf(text)[k];
            && RuneBoundary(text, w.start) && RuneBoundary(text, w.end)
            && w.start <= w.end
            && Valid(text[w.start..w.end])
  {
    var w := WindowsOf(text)[k];
    WindowAroundCore(text, k);
    if |text| > CHUNK_SIZE + 2 * CHUNK_OVERLAP {
      BeforeOnRune(text, CoreStart(text, k), CHUNK_OVERLAP);
    }
    SliceValid(text, w.start, w.end);
  }
}
