/** The full strategy: letters and digits become stars, except in service words. */
module FullMask {
  import opened Bytes
  import opened Spans
  import opened Utf8
  import opened Runes
  import opened Strategies
  import opened Splicing
  import opened Applying
  import opened Exactness

  const STAR: Rune := 42
  const HYPHEN: Rune := 45

  /** What counts as a letter or digit, and which words are service words. */
  datatype Lexicon = Lexicon(word: Rune -> bool, service: seq<Rune> -> bool)

  predicate Sane(lex: Lexicon) {
    !lex.word(STAR) && !lex.word(HYPHEN) && !lex.word(REPLACEMENT)
  }

  // ---------------------------------------------------------------- what a word is

  /** Runes k and k + 1 belong to one word: letters or digits side by side, or around a single
      hyphen. */
  predicate Joins(lex: Lexicon, v: seq<Rune>, k: int) {
    && 0 <= k && k + 1 < |v|
    && (|| (lex.word(v[k]) && lex.word(v[k + 1]))
        || (lex.word(v[k]) && v[k + 1] == HYPHEN && k + 2 < |v| && lex.word(v[k + 2]))
        || (v[k] == HYPHEN && lex.word(v[k + 1]) && k > 0 && lex.word(v[k - 1])))
  }

  /** A maximal word. */
  ghost predicate IsWord(lex: Lexicon, v: seq<Rune>, a: int, b: int) {
    && 0 <= a < b <= |v| && lex.word(v[a])
    && !Joins(lex, v, a - 1) && !Joins(lex, v, b - 1)
    && forall k :: a <= k < b - 1 ==> Joins(lex, v, k)
  }

  /** The k-th rune lies in a maximal service word. */
  ghost predicate InService(lex: Lexicon, v: seq<Rune>, k: int) {
    exists a, b :: a <= k < b && IsWord(lex, v, a, b) && lex.service(v[a..b])
  }

  lemma WordsApart(lex: Lexicon, v: seq<Rune>, a: int, b: int, c: int, d: int, k: int)
    requires IsWord(lex, v, a, b) && IsWord(lex, v, c, d) && a <= k < b && c <= k < d
    ensures a == c && b == d
  {
    assert a < c ==> Joins(lex, v, c - 1);
    assert c < a ==> Joins(lex, v, a - 1);
    assert b < d ==> Joins(lex, v, b - 1);
    assert d < b ==> Joins(lex, v, d - 1);
  }

  // ---------------------------------------------------------------- the code

  /** End of the word runes at `i`, single inner hyphens included. */
  function WordEnd(lex: Lexicon, v: seq<Rune>, i: nat): (j: nat)
    requires i <= |v|
    ensures i <= j <= |v| && (i < |v| && lex.word(v[i]) ==> i < j)
    decreases |v| - i
  {
    if i < |v| && lex.word(v[i]) then WordEnd(lex, v, i + 1)
    else if i + 1 < |v| && v[i] == HYPHEN && lex.word(v[i + 1]) then WordEnd(lex, v, i + 1)
    else i
  }

  /** Advances past a word; `k` is the rune that starts at byte `start`. */
  method ScanWord(lex: Lexicon, value: Text, start: nat, ghost r: Reading, ghost k: nat) returns (i: nat)
    requires At(value, r, start, k)
    ensures start <= i && At(value, r, i, WordEnd(lex, r.runes, k))
  {
    i := start;
    ghost var j := k;
    while i < |value|
      invariant start <= i && At(value, r, i, j)
      invariant WordEnd(lex, r.runes, j) == WordEnd(lex, r.runes, k)
      decreases |value| - i
    {
      var c, size := NextRune(value, i, r, j);
      if lex.word(c) {
        i, j := i + size, j + 1;
        continue;
      }
      if c == HYPHEN && i + size < |value| {
        var next, _ := NextRune(value, i + size, r, j + 1);
        if lex.word(next) {
          i, j := i + size, j + 1;
          continue;
        }
      }
      break;
    }
  }

  /** A word has letters, digits and hyphens only. */
  lemma {:induction false} WordRunes(lex: Lexicon, v: seq<Rune>, i: nat, k: nat)
    requires i <= |v| && i <= k < WordEnd(lex, v, i)
    ensures lex.word(v[k]) || v[k] == HYPHEN
    decreases k - i
  {
    if i < k {
      WordRunes(lex, v, i + 1, k);
    }
  }

  /** The bytes of a word are what its runes are written as. */
  lemma WordWritten(lex: Lexicon, value: Text, start: int, i: int, r: Reading, k: nat)
    requires Sane(lex) && At(value, r, start, k) && At(value, r, i, WordEnd(lex, r.runes, k))
    ensures start <= i && value[start..i] == Encode(r.runes[k..WordEnd(lex, r.runes, k)])
    ensures k < WordEnd(lex, r.runes, k) ==> start < i
  {
    var end := WordEnd(lex, r.runes, k);
    forall m | k <= m < end ensures r.runes[m] != REPLACEMENT {
      WordRunes(lex, r.runes, k, m);
    }
    SliceWritten(value, r, start, i, k, end);
  }

  function Stars(lex: Lexicon, v: seq<Rune>): (r: seq<Rune>)
    ensures |r| == |v|
    ensures forall k :: 0 <= k < |v| ==> r[k] == if lex.word(v[k]) then STAR else v[k]
  {
    seq(|v|, k requires 0 <= k < |v| => if lex.word(v[k]) then STAR else v[k])
  }

  /** Masks every letter and digit, of a whole value or of one word. */
  method MaskAllLetters(lex: Lexicon, value: Text, ghost r: Reading) returns (b: Text)
    requires ReadAs(value, r)
    ensures b == Encode(Stars(lex, r.runes))
  {
    b := [];
    var i: nat := 0;
    ghost var k: nat, stars := 0, Stars(lex, r.runes);
    while i < |value|
      invariant At(value, r, i, k)
      invariant b == Encode(stars[..k])
      decreases |value| - i
    {
      var c, size := NextRune(value, i, r, k);
      assert stars[..k] + [stars[k]] == stars[..k + 1];
      b := WriteRune(b, if lex.word(c) then STAR else c, stars[..k]);
      i, k := i + size, k + 1;
    }
    assert stars[..k] == stars;
  }

  /** Whether every word behind `i` is a service word. */
  function OnlyService(lex: Lexicon, v: seq<Rune>, i: nat, found: bool): bool
    requires i <= |v|
    decreases |v| - i
  {
    if i == |v| then found
    else if !lex.word(v[i]) then OnlyService(lex, v, i + 1, found)
    else
      var j := WordEnd(lex, v, i);
      lex.service(v[i..j]) && OnlyService(lex, v, j, true)
  }

  method AllServiceWords(lex: Lexicon, value: Text, ghost r: Reading) returns (all: bool)
    requires Sane(lex) && ReadAs(value, r)
    ensures all == OnlyService(lex, r.runes, 0, false)
  {
    var i: nat, found := 0, false;
    ghost var k: nat := 0;
    while i < |value|
      invariant At(value, r, i, k)
      invariant OnlyService(lex, r.runes, k, found) == OnlyService(lex, r.runes, 0, false)
      decreases |value| - i
    {
      var c, size := NextRune(value, i, r, k);
      if !lex.word(c) {
        i, k := i + size, k + 1;
        continue;
      }
      var start := i;
      i := ScanWord(lex, value, i, r, k);
      WordWritten(lex, value, start, i, r, k);
      var service := IsServiceWord(lex, value[start..i], r.runes[k..WordEnd(lex, r.runes, k)]);
      if !service {
        return false;
      }
      found, k := true, WordEnd(lex, r.runes, k);
    }
    return found;
  }

  method IsServiceWord(lex: Lexicon, word: Text, ghost runes: seq<Rune>) returns (service: bool)
    requires word == Encode(runes)
    ensures service == lex.service(runes)
  {
    DecodeEncode(runes);
    service := lex.service(Decode(word));
  }

  /** What the mask shows of a word of a value that is not all service words. */
  function ShownWord(lex: Lexicon, word: seq<Rune>): (r: seq<Rune>)
    ensures |r| == |word|
  {
    if lex.service(word) then word else Stars(lex, word)
  }

  function MaskedFrom(lex: Lexicon, v: seq<Rune>, i: nat): (r: seq<Rune>)
    requires i <= |v|
    ensures |r| == |v| - i
    decreases |v| - i
  {
    if i == |v| then []
    else if !lex.word(v[i]) then [v[i]] + MaskedFrom(lex, v, i + 1)
    else
      var j := WordEnd(lex, v, i);
      ShownWord(lex, v[i..j]) + MaskedFrom(lex, v, j)
  }

  function Full(lex: Lexicon, v: seq<Rune>): (r: seq<Rune>)
    ensures |r| == |v|
  {
    if OnlyService(lex, v, 0, false) then Stars(lex, v) else MaskedFrom(lex, v, 0)
  }

  /** The same on bytes, as the runes are read and written. */
  function FullText(lex: Lexicon, value: Text): Text {
    Encode(Full(lex, Decode(value)))
  }

  /** What is written of a rune outside words leaves the rest to be masked. */
  lemma MaskedRune(lex: Lexicon, v: seq<Rune>, k: nat, written: seq<Rune>)
    requires k < |v| && !lex.word(v[k])
    ensures written + MaskedFrom(lex, v, k) == (written + [v[k]]) + MaskedFrom(lex, v, k + 1)
  {}

  /** The same for a whole word. */
  lemma MaskedWord(lex: Lexicon, v: seq<Rune>, k: nat, written: seq<Rune>)
    requires k < |v| && lex.word(v[k])
    ensures written + MaskedFrom(lex, v, k)
         == (written + ShownWord(lex, v[k..WordEnd(lex, v, k)])) + MaskedFrom(lex, v, WordEnd(lex, v, k))
  {}

  method MaskFull(lex: Lexicon, value: Text) returns (b: Text)
    requires Sane(lex)
    ensures b == FullText(lex, value)
  {
    ghost var r := Read(value);
    var all := AllServiceWords(lex, value, r);
    if all {
      b := MaskAllLetters(lex, value, r);
    } else {
      b := MaskWords(lex, value, r);
    }
  }

  /** The loop over words and what lies between them. */
  method MaskWords(lex: Lexicon, value: Text, ghost r: Reading) returns (b: Text)
    requires Sane(lex) && ReadAs(value, r)
    ensures b == Encode(MaskedFrom(lex, r.runes, 0))
  {
    b := [];
    var i: nat := 0;
    ghost var k: nat, written: seq<Rune> := 0, [];
    assert written + MaskedFrom(lex, r.runes, 0) == MaskedFrom(lex, r.runes, 0);
    while i < |value|
      invariant At(value, r, i, k)
      invariant b == Encode(written) && written + MaskedFrom(lex, r.runes, k) == MaskedFrom(lex, r.runes, 0)
      decreases |value| - i
    {
      var c, size := NextRune(value, i, r, k);
      if !lex.word(c) {
        MaskedRune(lex, r.runes, k, written);
        b := WriteRune(b, c, written);
        i, k, written := i + size, k + 1, written + [c];
      } else {
        i, b, k, written := WriteWord(lex, value, i, r, k, b, written);
      }
    }
    assert written + [] == written;
  }

  /** The branch of the loop that meets a word: scans it and writes what is shown of it. */
  method WriteWord(lex: Lexicon, value: Text, start: nat, ghost r: Reading, ghost k: nat, b: Text, ghost written: seq<Rune>)
    returns (i: nat, more: Text, ghost end: nat, ghost all: seq<Rune>)
    requires Sane(lex) && At(value, r, start, k) && k < |r.runes| && lex.word(r.runes[k])
    requires b == Encode(written)
    ensures start < i && At(value, r, i, end) && more == Encode(all)
    ensures all + MaskedFrom(lex, r.runes, end) == written + MaskedFrom(lex, r.runes, k)
  {
    i := ScanWord(lex, value, start, r, k);
    end := WordEnd(lex, r.runes, k);
    WordWritten(lex, value, start, i, r, k);
    var shown := MaskWord(lex, value[start..i], r.runes[k..end]);
    all := written + ShownWord(lex, r.runes[k..end]);
    MaskedWord(lex, r.runes, k, written);
    EncodeConcat(written, ShownWord(lex, r.runes[k..end]));
    more := b + shown;
  }

  /** A word is kept when it is a service word, masked otherwise. */
  method MaskWord(lex: Lexicon, word: Text, ghost runes: seq<Rune>) returns (shown: Text)
    requires word == Encode(runes)
    ensures shown == Encode(ShownWord(lex, runes))
  {
    var service := IsServiceWord(lex, word, runes);
    if service {
      return word;
    }
    DecodeEncode(runes);
    ghost var r := Read(word);
    shown := MaskAllLetters(lex, word, r);
  }

  // ---------------------------------------------------------------- the scan finds the words

  /** `i` is not inside a word. */
  predicate Between(lex: Lexicon, v: seq<Rune>, i: int) {
    0 <= i <= |v| && !Joins(lex, v, i - 1)
  }

  lemma {:induction false} ScanJoins(lex: Lexicon, v: seq<Rune>, i: nat)
    requires Sane(lex) && 0 < i <= |v|
    requires lex.word(v[i - 1]) || (v[i - 1] == HYPHEN && i < |v| && lex.word(v[i]) && i > 1 && lex.word(v[i - 2]))
    ensures forall k :: i - 1 <= k < WordEnd(lex, v, i) - 1 ==> Joins(lex, v, k)
    ensures !Joins(lex, v, WordEnd(lex, v, i) - 1)
    decreases |v| - i
  {
    if i < |v| && (lex.word(v[i]) || (i + 1 < |v| && v[i] == HYPHEN && lex.word(v[i + 1]))) {
      ScanJoins(lex, v, i + 1);
      assert Joins(lex, v, i - 1);
    }
  }

  lemma ScanFindsWord(lex: Lexicon, v: seq<Rune>, i: nat)
    requires Sane(lex) && i < |v| && lex.word(v[i]) && Between(lex, v, i)
    ensures IsWord(lex, v, i, WordEnd(lex, v, i)) && Between(lex, v, WordEnd(lex, v, i))
  {
    ScanJoins(lex, v, i + 1);
  }

  /** A rune that is no letter or digit and lies between words is followed by a place between words. */
  lemma NextBetween(lex: Lexicon, v: seq<Rune>, i: nat)
    requires Sane(lex) && i < |v| && !lex.word(v[i]) && Between(lex, v, i)
    ensures Between(lex, v, i + 1)
  {
    assert Joins(lex, v, i) ==> Joins(lex, v, i - 1);
  }

  lemma {:induction false} OnlyServiceFrom(lex: Lexicon, v: seq<Rune>, i: nat, found: bool)
    requires Sane(lex) && Between(lex, v, i)
    ensures OnlyService(lex, v, i, found) <==>
              && (found || exists k :: i <= k < |v| && lex.word(v[k]))
              && forall k :: i <= k < |v| && lex.word(v[k]) ==> InService(lex, v, k)
    decreases |v| - i
  {
    if i < |v| {
      if !lex.word(v[i]) {
        NextBetween(lex, v, i);
        OnlyServiceFrom(lex, v, i + 1, found);
      } else {
        var j := WordEnd(lex, v, i);
        ScanFindsWord(lex, v, i);
        OnlyServiceFrom(lex, v, j, true);
        forall k | i <= k < j ensures InService(lex, v, k) <==> lex.service(v[i..j]) {
          WordDecides(lex, v, i, j, k);
        }
      }
    }
  }

  /** Whether a rune lies in a service word is decided by the word it lies in. */
  lemma WordDecides(lex: Lexicon, v: seq<Rune>, a: int, b: int, k: int)
    requires IsWord(lex, v, a, b) && a <= k < b
    ensures InService(lex, v, k) <==> lex.service(v[a..b])
  {
    if InService(lex, v, k) {
      var c, d :| c <= k < d && IsWord(lex, v, c, d) && lex.service(v[c..d]);
      WordsApart(lex, v, a, b, c, d, k);
    }
  }

  /** What the mask shows at one place of a value that is not all service words. */
  function Shown(lex: Lexicon, r: Rune, inService: bool): Rune {
    if lex.word(r) && !inService then STAR else r
  }

  lemma WordShows(lex: Lexicon, v: seq<Rune>, i: nat, j: nat, k: nat)
    requires IsWord(lex, v, i, j) && i <= k < j
    ensures ShownWord(lex, v[i..j])[k - i] == Shown(lex, v[k], InService(lex, v, k))
  {
    WordDecides(lex, v, i, j, k);
    assert v[i..j][k - i] == v[k];
  }

  lemma {:induction false} MaskedFromShows(lex: Lexicon, v: seq<Rune>, i: nat, k: nat)
    requires Sane(lex) && Between(lex, v, i) && i <= k < |v|
    ensures MaskedFrom(lex, v, i)[k - i] == Shown(lex, v[k], InService(lex, v, k))
    decreases |v| - i
  {
    if !lex.word(v[i]) {
      if k > i {
        NextBetween(lex, v, i);
        MaskedFromShows(lex, v, i + 1, k);
      }
    } else {
      var j := WordEnd(lex, v, i);
      ScanFindsWord(lex, v, i);
      assert MaskedFrom(lex, v, i) == ShownWord(lex, v[i..j]) + MaskedFrom(lex, v, j);
      if k < j {
        WordShows(lex, v, i, j, k);
      } else {
        MaskedFromShows(lex, v, j, k);
      }
    }
  }

  /** Some word of the value is not a service word, so service words stay readable. */
  ghost predicate Readable(lex: Lexicon, v: seq<Rune>) {
    exists k :: 0 <= k < |v| && lex.word(v[k]) && !InService(lex, v, k)
  }

  /** On any runes: as many come out, none but letters and digits change, and those become stars
      except inside a maximal service word of a value that also has another word. */
  lemma FullShape(lex: Lexicon, v: seq<Rune>, k: nat)
    requires Sane(lex) && k < |v|
    ensures Full(lex, v)[k] ==
              if lex.word(v[k]) && !(InService(lex, v, k) && Readable(lex, v)) then STAR else v[k]
  {
    OnlyServiceFrom(lex, v, 0, false);
    MaskedFromShows(lex, v, 0, k);
  }

  /** A value with a letter or digit never comes back unchanged. */
  lemma FullHides(lex: Lexicon, v: seq<Rune>)
    requires Sane(lex)
    ensures Full(lex, v) == v <==> forall k :: 0 <= k < |v| ==> !lex.word(v[k])
  {
    forall k: nat | k < |v|
      ensures Full(lex, v)[k] ==
                if lex.word(v[k]) && !(InService(lex, v, k) && Readable(lex, v)) then STAR else v[k]
    {
      FullShape(lex, v, k);
    }
    if Readable(lex, v) {
      var k :| 0 <= k < |v| && lex.word(v[k]) && !InService(lex, v, k);
      assert Full(lex, v)[k] == STAR;
    }
  }

  // ---------------------------------------------------------------- on bytes

  /** The masked text is well-formed and reads as the masked runes, so the shape holds for it
      rune by rune; as many runes come out as went in. */
  lemma FullTextShape(lex: Lexicon, value: Text)
    requires Sane(lex)
    ensures Valid(FullText(lex, value))
    ensures Decode(FullText(lex, value)) == Full(lex, Decode(value))
    ensures |Decode(FullText(lex, value))| == |Decode(value)|
  {
    DecodeEncode(Full(lex, Decode(value)));
  }

  /** The value comes back byte by byte exactly when it is well-formed and has no letter or
      digit; bytes that are no UTF-8 come out as U+FFFD. */
  lemma FullTextHides(lex: Lexicon, value: Text)
    requires Sane(lex)
    ensures FullText(lex, value) == value <==> Valid(value) && forall k :: 0 <= k < |Decode(value)| ==> !lex.word(Decode(value)[k])
  {
    FullTextShape(lex, value);
    FullHides(lex, Decode(value));
    EncodeDecode(value);
  }

  /** The strategy built from it: every value gets a shape. */
  function FullStrategy(lex: Lexicon): Strategy {
    Strategy(FULL, (value: Text, c: Category) => Some(FullText(lex, value)))
  }

  const FULL: Text := [102, 117, 108, 108]

  /** The full strategy hides no value altogether, so whatever it masks can be restored exactly. */
  lemma FullCanBeUndone(lex: Lexicon)
    ensures KeepsNonEmpty(FullStrategy(lex)) && Exact(FullStrategy(lex))
  {
    forall value: Text | value != [] ensures FullText(lex, value) != [] {
      assert |Full(lex, Decode(value))| == |Decode(value)| > 0;
    }
    ExactIffNonEmpty(FullStrategy(lex));
  }

  /** Whatever is masked with the full strategy on a new document: each replacement shows the
      masked form of its original. */
  lemma FullIsApplied(lex: Lexicon, text: Text, spans: seq<Span>, masked: Text, reps: seq<Replacement>, d': Doc, k: nat)
    requires Applied(text, spans, FullStrategy(lex), EMPTY_DOC, masked, reps, d') && k < |reps|
    ensures reps[k].masked == FullText(lex, reps[k].original)
  {
    MasksComeFromStrategy(text, spans, FullStrategy(lex), masked, reps, d');
    assert Made(FullStrategy(lex), reps, k);
  }
}
