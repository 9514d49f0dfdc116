/** Runes as Go reads and writes them: any byte string decodes, each byte that starts no
    well-formed character as U+FFFD. */
module Runes {
  import opened Bytes
  import opened Utf8

  /** Unicode scalar values. */
  type Rune = r: int | 0 <= r <= 0x10FFFF && !(0xD800 <= r <= 0xDFFF)

  const REPLACEMENT: Rune := 0xFFFD

  /** A byte that continues a character: its last six bits are those of `n`. */
  function Continued(n: nat): (b: Byte)
    ensures b == 0x80 + n % 64 && Tail(b)
  {
    var low := n % 64;
    0x80 + low
  }

  function EncodeRune(r: Rune): (s: Text)
    ensures 1 <= |s| <= 4
  {
    if r <= 0x7F then [r]
    else if r <= 0x7FF then [0xC0 + r / 64, Continued(r)]
    else if r <= 0xFFFF then [0xE0 + r / 64 / 64, Continued(r / 64), Continued(r)]
    else [0xF0 + r / 64 / 64 / 64, Continued(r / 64 / 64), Continued(r / 64), Continued(r)]
  }

  /** Bytes taken by the first rune. */
  function Width(s: Text): (n: nat)
    requires s != []
    ensures 1 <= n <= |s|
  {
    if CharLen(s) == 0 then 1 else CharLen(s)
  }

  /** The bits of a byte behind its marker. */
  function Payload(b: Byte, marker: Byte): int {
    b as int - marker as int
  }

  /** The first rune. */
  function FirstRune(s: Text): Rune
    requires s != []
  {
    match CharLen(s)
    case 0 => REPLACEMENT
    case 1 => s[0]
    case 2 => 64 * Payload(s[0], 0xC0) + Payload(s[1], 0x80)
    case 3 => 64 * (64 * Payload(s[0], 0xE0) + Payload(s[1], 0x80)) + Payload(s[2], 0x80)
    case _ => 64 * (64 * (64 * Payload(s[0], 0xF0) + Payload(s[1], 0x80)) + Payload(s[2], 0x80)) + Payload(s[3], 0x80)
  }

  function Decode(s: Text): seq<Rune>
    decreases |s|
  {
    if s == [] then [] else [FirstRune(s)] + Decode(s[Width(s)..])
  }

  /** The images, one after the other. */
  function Flatten<T>(v: seq<T>, f: T -> Text): Text {
    if v == [] then [] else f(v[0]) + Flatten(v[1..], f)
  }

  function Encode(v: seq<Rune>): Text {
    Flatten(v, EncodeRune)
  }

  // ---------------------------------------------------------------- one rune

  lemma ShortRune(r: Rune, s: Text)
    requires r <= 0x7FF && |EncodeRune(r)| <= |s| && s[..|EncodeRune(r)|] == EncodeRune(r)
    ensures CharLen(s) == |EncodeRune(r)| && FirstRune(s) == r
  {
    var e := EncodeRune(r);
    assert forall k :: 0 <= k < |e| ==> s[k] == e[k];
  }

  lemma ThreeByteRune(r: Rune, s: Text)
    requires 0x7FF < r <= 0xFFFF && 3 <= |s| && s[..3] == EncodeRune(r)
    ensures CharLen(s) == 3 && FirstRune(s) == r
  {
    var e := EncodeRune(r);
    assert s[0] == e[0] && s[1] == e[1] && s[2] == e[2];
    assert ThreeHead(s[0], s[1]);
  }

  lemma FourByteRune(r: Rune, s: Text)
    requires 0xFFFF < r && 4 <= |s| && s[..4] == EncodeRune(r)
    ensures CharLen(s) == 4 && FirstRune(s) == r
  {
    var e := EncodeRune(r);
    assert s[0] == e[0] && s[1] == e[1] && s[2] == e[2] && s[3] == e[3];
    assert FourHead(s[0], s[1]);
  }

  /** A rune written in front of anything is read back. */
  lemma EncodedRune(r: Rune, rest: Text)
    ensures var s := EncodeRune(r) + rest;
            CharLen(s) == |EncodeRune(r)| && FirstRune(s) == r && s[CharLen(s)..] == rest
  {
    var s := EncodeRune(r) + rest;
    assert s[..|EncodeRune(r)|] == EncodeRune(r);
    if r <= 0x7FF {
      ShortRune(r, s);
    } else if r <= 0xFFFF {
      ThreeByteRune(r, s);
    } else {
      FourByteRune(r, s);
    }
  }

  lemma LastSixBits(q: nat, d: nat)
    requires d < 64
    ensures (64 * q + d) / 64 == q && (64 * q + d) % 64 == d
  {}

  /** Six bits at a time. */
  lemma SixBits(a: nat, b: nat, c: nat, d: nat)
    requires b < 64 && c < 64 && d < 64
    ensures var n := 64 * (64 * (64 * a + b) + c) + d;
            && n % 64 == d && n / 64 == 64 * (64 * a + b) + c
            && n / 64 % 64 == c && n / 64 / 64 == 64 * a + b
            && n / 64 / 64 % 64 == b && n / 64 / 64 / 64 == a
  {
    LastSixBits(a, b);
    LastSixBits(64 * a + b, c);
    LastSixBits(64 * (64 * a + b) + c, d);
  }

  lemma WellFormedTwo(s: Text)
    requires CharLen(s) == 2
    ensures EncodeRune(FirstRune(s)) == [s[0], s[1]]
  {
  }

  lemma WellFormedThree(s: Text)
    requires CharLen(s) == 3
    ensures EncodeRune(FirstRune(s)) == [s[0], s[1], s[2]]
  {
    SixBits(0, s[0] - 0xE0, s[1] - 0x80, s[2] - 0x80);
  }

  lemma WellFormedFour(s: Text)
    requires CharLen(s) == 4
    ensures EncodeRune(FirstRune(s)) == [s[0], s[1], s[2], s[3]]
  {
    SixBits(s[0] - 0xF0, s[1] - 0x80, s[2] - 0x80, s[3] - 0x80);
  }

  /** A well-formed character is what its rune is written as. */
  lemma WellFormedRune(s: Text)
    requires s != [] && CharLen(s) > 0
    ensures EncodeRune(FirstRune(s)) == s[..CharLen(s)]
  {
    if CharLen(s) == 2 {
      WellFormedTwo(s);
    } else if CharLen(s) == 3 {
      WellFormedThree(s);
    } else if CharLen(s) == 4 {
      WellFormedFour(s);
    }
  }

  // ---------------------------------------------------------------- texts

  lemma {:induction false} FlattenConcat<T>(a: seq<T>, b: seq<T>, f: T -> Text)
    ensures Flatten(a + b, f) == Flatten(a, f) + Flatten(b, f)
  {
    if a == [] {
      assert a + b == b;
    } else {
      assert (a + b)[1..] == a[1..] + b;
      FlattenConcat(a[1..], b, f);
    }
  }

  lemma FlattenSnoc<T>(v: seq<T>, x: T, f: T -> Text)
    ensures Flatten(v + [x], f) == Flatten(v, f) + f(x)
  {
    FlattenConcat(v, [x], f);
    assert Flatten([x], f) == f(x) + Flatten([x][1..], f);
  }

  lemma EncodeConcat(a: seq<Rune>, b: seq<Rune>)
    ensures Encode(a + b) == Encode(a) + Encode(b)
  {
    FlattenConcat(a, b, EncodeRune);
  }

  /** The m-th piece of the text is the image of the m-th element. */
  ghost predicate Piece<T>(s: Text, cuts: seq<int>, v: seq<T>, f: T -> Text, m: int)
    requires |cuts| == |v| + 1 && 0 <= m < |v|
  {
    0 <= cuts[m] < cuts[m + 1] <= |s| && s[cuts[m]..cuts[m + 1]] == f(v[m])
  }

  /** Pieces of a text that are images in turn are the images flattened. */
  lemma {:induction false} PiecesFlatten<T>(s: Text, cuts: seq<int>, v: seq<T>, f: T -> Text, k: int, j: int)
    requires |cuts| == |v| + 1 && 0 <= k <= j <= |v| && 0 <= cuts[k] <= |s|
    requires forall m :: k <= m < j ==> Piece(s, cuts, v, f, m)
    ensures cuts[k] <= cuts[j] <= |s| && (k < j ==> cuts[k] < cuts[j])
    ensures s[cuts[k]..cuts[j]] == Flatten(v[k..j], f)
    decreases j
  {
    if k < j {
      PiecesFlatten(s, cuts, v, f, k, j - 1);
      assert Piece(s, cuts, v, f, j - 1);
      FlattenSnoc(v[k..j - 1], v[j - 1], f);
      assert v[k..j - 1] + [v[j - 1]] == v[k..j];
      assert s[cuts[k]..cuts[j]] == s[cuts[k]..cuts[j - 1]] + s[cuts[j - 1]..cuts[j]];
    }
  }

  /** What is written is well-formed and reads back. */
  lemma {:induction false} DecodeEncode(v: seq<Rune>)
    ensures Decode(Encode(v)) == v && Valid(Encode(v))
  {
    if v != [] {
      EncodedRune(v[0], Encode(v[1..]));
      DecodeEncode(v[1..]);
      assert v == [v[0]] + v[1..];
    }
  }

  // ---------------------------------------------------------------- reading rune by rune

  /** How a text is read: its runes, and the byte offsets before each and after the last. */
  datatype Reading = Reading(runes: seq<Rune>, cuts: seq<int>)

  /** Rune `k` is what is read at its cut, and reaches to the next. */
  ghost predicate ReadsRune(s: Text, r: Reading, k: int)
    requires |r.cuts| == |r.runes| + 1 && 0 <= k < |r.runes|
  {
    && 0 <= r.cuts[k] < |s|
    && FirstRune(s[r.cuts[k]..]) == r.runes[k] && r.cuts[k] + Width(s[r.cuts[k]..]) == r.cuts[k + 1]
  }

  ghost predicate ReadAs(s: Text, r: Reading) {
    && |r.cuts| == |r.runes| + 1 && r.cuts[0] == 0 && r.cuts[|r.runes|] == |s|
    && (forall k {:trigger r.cuts[k]} :: 0 <= k < |r.runes| ==> 0 <= r.cuts[k] < |s|)
    && forall k :: 0 <= k < |r.runes| ==> ReadsRune(s, r, k)
  }

  /** Byte `i` is where rune `k` starts; behind the last rune both are at the end. */
  ghost predicate At(s: Text, r: Reading, i: int, k: int) {
    ReadAs(s, r) && 0 <= k <= |r.runes| && i == r.cuts[k] && (i < |s| <==> k < |r.runes|)
  }

  /** The cuts of the rest, moved behind the first rune. */
  function Later(cuts: seq<int>, n: int): (r: seq<int>)
    ensures |r| == |cuts|
    ensures forall k {:trigger r[k]} {:trigger cuts[k]} :: 0 <= k < |cuts| ==> r[k] == n + cuts[k]
  {
    seq(|cuts|, k requires 0 <= k < |cuts| => n + cuts[k])
  }

  lemma ReadsLater(s: Text, rest: Reading, r: Reading, n: int, k: int)
    requires 0 <= n <= |s| && |rest.cuts| == |rest.runes| + 1 && |r.cuts| == |r.runes| + 1
    requires |r.runes| == |rest.runes| + 1 && 0 < k < |r.runes|
    requires r.runes[k] == rest.runes[k - 1]
    requires r.cuts[k] == n + rest.cuts[k - 1] && r.cuts[k + 1] == n + rest.cuts[k]
    requires ReadsRune(s[n..], rest, k - 1)
    ensures ReadsRune(s, r, k)
  {
    assert s[r.cuts[k]..] == s[n..][rest.cuts[k - 1]..];
  }

  lemma PrependReading(s: Text, rest: Reading) returns (r: Reading)
    requires s != [] && ReadAs(s[Width(s)..], rest)
    ensures ReadAs(s, r) && r.runes == [FirstRune(s)] + rest.runes
  {
    var n := Width(s);
    var later := Later(rest.cuts, n);
    r := Reading([FirstRune(s)] + rest.runes, [0] + later);
    assert s[0..] == s && later[0] == n;
    assert ReadsRune(s, r, 0);
    forall k | 0 < k < |r.runes| ensures ReadsRune(s, r, k) {
      assert r.cuts[k] == later[k - 1] && r.cuts[k + 1] == later[k];
      assert ReadsRune(s[n..], rest, k - 1);
      ReadsLater(s, rest, r, n, k);
    }
    assert r.cuts[|r.runes|] == later[|rest.runes|] == |s|;
  }

  /** Every text can be read, as the runes it decodes to. */
  lemma {:induction false} Read(s: Text) returns (r: Reading)
    ensures ReadAs(s, r) && r.runes == Decode(s)
    decreases |s|
  {
    if s == [] {
      r := Reading([], [0]);
    } else {
      var rest := Read(s[Width(s)..]);
      r := PrependReading(s, rest);
    }
  }

  /** The next rune and its size. */
  method NextRune(s: Text, i: nat, ghost r: Reading, ghost k: nat) returns (c: Rune, size: nat)
    requires At(s, r, i, k) && i < |s|
    ensures c == r.runes[k] && size >= 1 && At(s, r, i + size, k + 1)
  {
    c, size := FirstRune(s[i..]), Width(s[i..]);
    assert ReadsRune(s, r, k);
  }

  lemma RuneWritten(s: Text, r: Reading, k: int)
    requires ReadAs(s, r) && 0 <= k < |r.runes|
    requires r.runes[k] != REPLACEMENT || CharLen(s[r.cuts[k]..]) > 0
    ensures Piece(s, r.cuts, r.runes, EncodeRune, k)
  {
    var rest := s[r.cuts[k]..];
    assert ReadsRune(s, r, k);
    WellFormedRune(rest);
    assert rest[..Width(rest)] == s[r.cuts[k]..r.cuts[k + 1]];
  }

  /** Bytes read as anything but U+FFFD are what their runes are written as. */
  lemma SliceWritten(s: Text, r: Reading, start: int, i: int, k: int, j: int)
    requires At(s, r, start, k) && At(s, r, i, j) && k <= j
    requires forall m :: k <= m < j ==> r.runes[m] != REPLACEMENT
    ensures start <= i && (k < j ==> start < i)
    ensures s[start..i] == Encode(r.runes[k..j])
  {
    forall m | k <= m < j ensures Piece(s, r.cuts, r.runes, EncodeRune, m) {
      RuneWritten(s, r, m);
    }
    PiecesFlatten(s, r.cuts, r.runes, EncodeRune, k, j);
  }

  /** Behind every cut of a well-formed text the rest is well-formed. */
  lemma {:induction false} ValidBehind(s: Text, r: Reading, k: int)
    requires Valid(s) && ReadAs(s, r) && 0 <= k < |r.runes|
    ensures CharLen(s[r.cuts[k]..]) > 0 && Valid(s[r.cuts[k]..])
    decreases k
  {
    if k == 0 {
      assert s[0..] == s;
    } else {
      ValidBehind(s, r, k - 1);
      var rest := s[r.cuts[k - 1]..];
      assert ReadsRune(s, r, k - 1);
      assert rest[CharLen(rest)..] == s[r.cuts[k]..];
    }
  }

  lemma EncodeDecodeValid(s: Text)
    requires Valid(s)
    ensures Encode(Decode(s)) == s
  {
    var r := Read(s);
    forall m | 0 <= m < |r.runes| ensures Piece(s, r.cuts, r.runes, EncodeRune, m) {
      ValidBehind(s, r, m);
      RuneWritten(s, r, m);
    }
    PiecesFlatten(s, r.cuts, r.runes, EncodeRune, 0, |r.runes|);
    assert r.runes[0..|r.runes|] == r.runes && s[0..|s|] == s;
  }

  /** Reading and writing again changes a text exactly when it is not well-formed UTF-8. */
  lemma EncodeDecode(s: Text)
    ensures Encode(Decode(s)) == s <==> Valid(s)
  {
    DecodeEncode(Decode(s));
    if Valid(s) {
      EncodeDecodeValid(s);
    }
  }

  method WriteRune(b: Text, c: Rune, ghost written: seq<Rune>) returns (more: Text)
    requires b == Encode(written)
    ensures more == Encode(written + [c])
  {
    FlattenSnoc(written, c, EncodeRune);
    more := b + EncodeRune(c);
  }
}
