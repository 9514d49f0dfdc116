/** Check digits: what the generators of synthetic values write, the validators of the detectors
    read. */
module CheckDigits {
  import opened Bytes
  import opened Strategies

  ghost predicate AllDigits(d: Text) {
    forall k :: 0 <= k < |d| ==> IsDigit(d[k])
  }

  function DigitsOnly(s: Text): (d: Text)
    ensures AllDigits(d)
  {
    if s == [] then []
    else if IsDigit(s[|s| - 1]) then DigitsOnly(s[..|s| - 1]) + [s[|s| - 1]]
    else DigitsOnly(s[..|s| - 1])
  }

  method CollectDigits(s: Text) returns (d: Text)
    ensures d == DigitsOnly(s)
  {
    d := [];
    for i := 0 to |s|
      invariant d == DigitsOnly(s[..i])
    {
      assert s[..i + 1][..i] == s[..i];
      if IsDigit(s[i]) {
        d := d + [s[i]];
      }
    }
    assert s[..|s|] == s;
  }

  lemma {:induction false} DigitsOfDigits(d: Text)
    requires AllDigits(d)
    ensures DigitsOnly(d) == d
    decreases |d|
  {
    if d != [] {
      DigitsOfDigits(d[..|d| - 1]);
    }
  }

  // ---------------------------------------------------------------- Luhn

  /** What a digit adds to the sum; a doubled one has its two digits added up. */
  function Weigh(n: int, double: bool): int {
    if !double then n else if n * 2 > 9 then n * 2 - 9 else n * 2
  }

  /** The sum from the right; `double` tells whether the last digit is doubled. */
  function LuhnSum(d: Text, double: bool): int
    decreases |d|
  {
    if d == [] then 0
    else Weigh(d[|d| - 1] - DIGIT_ZERO, double) + LuhnSum(d[..|d| - 1], !double)
  }

  function CheckDigit(d: Text): (c: int)
    ensures 0 <= c <= 9
  {
    (10 - LuhnSum(d, true) % 10) % 10
  }

  predicate LuhnValid(d: Text) {
    LuhnSum(d, false) % 10 == 0
  }

  method SumFromRight(d: Text, first: bool) returns (sum: int)
    ensures sum == LuhnSum(d, first)
  {
    sum := 0;
    var double := first;
    var i := |d| - 1;
    assert d[..i + 1] == d;
    while i >= 0
      invariant -1 <= i < |d|
      invariant sum + LuhnSum(d[..i + 1], double) == LuhnSum(d, first)
    {
      assert d[..i + 1][..i] == d[..i];
      var n := d[i] - DIGIT_ZERO;
      if double {
        n := n * 2;
        if n > 9 {
          n := n - 9;
        }
      }
      sum := sum + n;
      double := !double;
      i := i - 1;
    }
  }

  method LuhnCheckDigit(d: Text) returns (c: Byte)
    ensures c == DIGIT_ZERO + CheckDigit(d)
  {
    var sum := SumFromRight(d, true);
    c := DIGIT_ZERO + (10 - sum % 10) % 10;
  }

  method Luhn(value: Text) returns (ok: bool)
    ensures ok <==> 13 <= |DigitsOnly(value)| <= 19 && LuhnValid(DigitsOnly(value))
    ensures var d := DigitsOnly(value); ok <==> 13 <= |d| <= 19 && PlaceSum(d, |d|) % 10 == 0
  {
    var d := CollectDigits(value);
    LuhnSumByPlaces(d);
    if |d| < 13 || |d| > 19 {
      return false;
    }
    var sum := SumFromRight(d, false);
    return sum % 10 == 0;
  }

  /** Any card the generator can draw: a body of 15 digits and its check digit. */
  method Card(body: Text) returns (card: Text)
    requires |body| == 15 && AllDigits(body)
    ensures card == body + [DIGIT_ZERO + CheckDigit(body)] && LuhnValid(card)
  {
    var c := LuhnCheckDigit(body);
    card := body + [c];
    CheckDigitIsRight(body, CheckDigit(body));
  }

  /** For a digit string of any length: with the check digit appended it is valid, and with no
      other digit. */
  lemma CheckDigitIsRight(body: Text, c: int)
    requires 0 <= c <= 9
    ensures LuhnValid(body + [DIGIT_ZERO + c]) <==> c == CheckDigit(body)
  {
    var d := body + [DIGIT_ZERO + c];
    assert d[..|d| - 1] == body;
    assert LuhnSum(d, false) == c + LuhnSum(body, true);
  }

  predicate Flip(double: bool, n: nat) {
    if n % 2 == 0 then double else !double
  }

  lemma {:induction false} SumSplits(a: Text, b: Text, double: bool)
    ensures LuhnSum(a + b, double) == LuhnSum(b, double) + LuhnSum(a, Flip(double, |b|))
    decreases |b|
  {
    if b == [] {
      assert a + b == a;
    } else {
      var n := |b| - 1;
      assert (a + b)[..|a + b| - 1] == a + b[..n];
      SumSplits(a, b[..n], !double);
    }
  }

  lemma SumOfOne(x: Byte, double: bool)
    ensures LuhnSum([x], double) == Weigh(x - DIGIT_ZERO, double)
  {
    assert [x][..0] == [];
  }

  lemma SumAround(a: Text, x: Byte, b: Text, double: bool)
    ensures LuhnSum(a + [x] + b, double)
         == LuhnSum(b, double) + Weigh(x - DIGIT_ZERO, Flip(double, |b|)) + LuhnSum(a, Flip(double, |b| + 1))
  {
    SumSplits(a + [x], b, double);
    SumSplits(a, [x], Flip(double, |b|));
    SumOfOne(x, Flip(double, |b|));
  }

  lemma WeighTellsDigits(x: int, y: int, double: bool)
    requires 0 <= x <= 9 && 0 <= y <= 9
    ensures (Weigh(x, double) - Weigh(y, double)) % 10 == 0 <==> x == y
  {}

  /** Two sums that differ by a and b are both valid only if a and b agree. */
  lemma SumsDiffer(rest: int, a: int, b: int)
    requires (rest + a) % 10 == 0
    ensures (rest + b) % 10 == 0 <==> (a - b) % 10 == 0
  {}

  /** Changing any single digit of a valid string makes it invalid. */
  lemma SingleErrorDetected(a: Text, x: Byte, y: Byte, b: Text)
    requires IsDigit(x) && IsDigit(y) && x != y && LuhnValid(a + [x] + b)
    ensures !LuhnValid(a + [y] + b)
  {
    var double := Flip(false, |b|);
    SumAround(a, x, b, false);
    SumAround(a, y, b, false);
    WeighTellsDigits(x - DIGIT_ZERO, y - DIGIT_ZERO, double);
    SumsDiffer(LuhnSum(b, false) + LuhnSum(a, Flip(false, |b| + 1)),
               Weigh(x - DIGIT_ZERO, double), Weigh(y - DIGIT_ZERO, double));
  }

  function PairWeight(x: int, y: int, double: bool): int {
    Weigh(x, !double) + Weigh(y, double)
  }

  lemma WeighSwap(x: int, y: int, double: bool)
    requires 0 <= x <= 9 && 0 <= y <= 9
    ensures (PairWeight(x, y, double) - PairWeight(y, x, double)) % 10 == 0
            <==> x == y || (x == 0 && y == 9) || (x == 9 && y == 0)
  {}

  lemma FlipNext(double: bool, n: nat)
    ensures Flip(double, n + 1) == !Flip(double, n)
  {}

  lemma PairSum(a: Text, x: Byte, y: Byte, b: Text)
    ensures LuhnSum(a + [x] + ([y] + b), false)
         == LuhnSum(b, false) + LuhnSum(a, Flip(false, |b|))
            + PairWeight(x - DIGIT_ZERO, y - DIGIT_ZERO, Flip(false, |b|))
  {
    SumAround(a, x, [y] + b, false);
    SumSplits([y], b, false);
    SumOfOne(y, Flip(false, |b|));
    FlipNext(false, |b|);
    FlipNext(false, |b| + 1);
    assert |[y] + b| == |b| + 1;
  }

  /** Swapping two adjacent digits of a valid string goes undetected exactly when they are equal
      or a 0 and a 9. */
  lemma SwapDetected(a: Text, x: Byte, y: Byte, b: Text)
    requires IsDigit(x) && IsDigit(y) && LuhnValid(a + [x] + ([y] + b))
    ensures LuhnValid(a + [y] + ([x] + b)) <==>
            x == y || (x == DIGIT_ZERO && y == DIGIT_ZERO + 9) || (x == DIGIT_ZERO + 9 && y == DIGIT_ZERO)
  {
    var m, n, double := x - DIGIT_ZERO, y - DIGIT_ZERO, Flip(false, |b|);
    PairSum(a, x, y, b);
    PairSum(a, y, x, b);
    WeighSwap(m, n, double);
    SumsDiffer(LuhnSum(b, false) + LuhnSum(a, double), PairWeight(m, n, double), PairWeight(n, m, double));
  }

  // ---------------------------------------------------------------- the Luhn sum by places

  /** The k-th digit from the right. */
  function FromRight(d: Text, k: nat): int
    requires k < |d|
  {
    d[|d| - 1 - k] as int - DIGIT_ZERO as int
  }

  /** At even places the digit counts itself, at odd places the digits of its double do. */
  function PlaceValue(d: Text, k: nat): int
    requires k < |d|
  {
    var n := FromRight(d, k);
    if k % 2 == 0 then n else 2 * n / 10 + 2 * n % 10
  }

  function PlaceSum(d: Text, n: nat): int
    requires n <= |d|
  {
    if n == 0 then 0 else PlaceSum(d, n - 1) + PlaceValue(d, n - 1)
  }

  lemma {:induction false} PlacesOfTail(d: Text, n: nat)
    requires n < |d|
    ensures PlaceSum(d, n) == PlaceSum(d[1..], n)
  {
    if n > 0 {
      PlacesOfTail(d, n - 1);
      assert FromRight(d, n - 1) == FromRight(d[1..], n - 1);
    }
  }

  /** A digit weighs what its place makes of it. */
  lemma PlaceWeighs(d: Text, k: nat)
    requires AllDigits(d) && k < |d|
    ensures PlaceValue(d, k) == Weigh(d[|d| - 1 - k] - DIGIT_ZERO, Flip(false, k))
  {
    var n := FromRight(d, k);
    assert 0 <= n <= 9;
    assert 2 * n / 10 + 2 * n % 10 == if 2 * n > 9 then 2 * n - 9 else 2 * n;
  }

  /** The sum over the digits is the sum over the places. */
  lemma {:induction false} LuhnSumByPlaces(d: Text)
    requires AllDigits(d)
    ensures LuhnSum(d, false) == PlaceSum(d, |d|)
    decreases |d|
  {
    if d != [] {
      var tail := d[1..];
      assert d == [d[0]] + tail;
      SumSplits([d[0]], tail, false);
      SumOfOne(d[0], Flip(false, |tail|));
      LuhnSumByPlaces(tail);
      PlacesOfTail(d, |tail|);
      PlaceWeighs(d, |tail|);
    }
  }

  // ---------------------------------------------------------------- digits in place

  /** The digits of `value` replaced by those of `fake`, as far as they go. */
  function ApplyDigits(value: Text, fake: Text): (r: Text)
    ensures |r| == |value|
    ensures forall k :: 0 <= k < |value| && !IsDigit(value[k]) ==> r[k] == value[k]
    ensures AllDigits(fake) ==> forall k :: 0 <= k < |value| && IsDigit(value[k]) ==> IsDigit(r[k])
    decreases |value|
  {
    if value == [] then []
    else if IsDigit(value[0]) && fake != [] then [fake[0]] + ApplyDigits(value[1..], fake[1..])
    else [value[0]] + ApplyDigits(value[1..], fake)
  }

  lemma Append(a: Text, b: Text, c: Text)
    ensures a + (b + c) == (a + b) + c
  {}

  method WriteDigits(value: Text, fake: Text) returns (b: Text)
    ensures b == ApplyDigits(value, fake)
  {
    b := [];
    var fi := 0;
    assert value[0..] == value && fake[0..] == fake;
    for i := 0 to |value|
      invariant 0 <= fi <= |fake|
      invariant b + ApplyDigits(value[i..], fake[fi..]) == ApplyDigits(value, fake)
    {
      assert value[i..][0] == value[i] && value[i..][1..] == value[i + 1..];
      if IsDigit(value[i]) && fi < |fake| {
        assert fake[fi..][0] == fake[fi] && fake[fi..][1..] == fake[fi + 1..];
        Append(b, [fake[fi]], ApplyDigits(value[i + 1..], fake[fi + 1..]));
        b := b + [fake[fi]];
        fi := fi + 1;
      } else {
        Append(b, [value[i]], ApplyDigits(value[i + 1..], fake[fi..]));
        b := b + [value[i]];
      }
    }
  }

  lemma {:induction false} DigitsOnlyHead(x: Byte, s: Text)
    ensures DigitsOnly([x] + s) == (if IsDigit(x) then [x] else []) + DigitsOnly(s)
    decreases |s|
  {
    if s == [] {
      assert ([x] + s)[..0] == [];
    } else {
      var n := |s| - 1;
      assert ([x] + s)[..|s|] == [x] + s[..n];
      DigitsOnlyHead(x, s[..n]);
    }
  }

  /** The new digits, as far as there is room, then the old ones beyond them. */
  function Merged(fake: Text, d: Text): Text {
    if |fake| <= |d| then fake + d[|fake|..] else fake[..|d|]
  }

  lemma MergedHead(fake: Text, x: Byte, d: Text)
    requires fake != []
    ensures Merged(fake, [x] + d) == [fake[0]] + Merged(fake[1..], d)
  {
    if |fake| <= |d| + 1 {
      assert ([x] + d)[|fake|..] == d[|fake| - 1..];
      assert fake == [fake[0]] + fake[1..];
    }
  }

  lemma MergedKeeps(fake: Text, x: Byte, d: Text)
    requires !IsDigit(x) || fake == []
    ensures Merged(fake, (if IsDigit(x) then [x] else []) + d) == (if IsDigit(x) then [x] else []) + Merged(fake, d)
  {
    assert [] + d == d && [] + Merged(fake, d) == Merged(fake, d);
    assert Merged([], d) == d && Merged([], [x] + d) == [x] + d;
  }

  /** The digits read back are the new ones, then the old ones beyond them. */
  lemma {:induction false} AppliedDigits(value: Text, fake: Text)
    requires AllDigits(fake)
    ensures DigitsOnly(ApplyDigits(value, fake)) == Merged(fake, DigitsOnly(value))
    decreases |value|
  {
    if value != [] {
      var x, rest := value[0], value[1..];
      assert value == [x] + rest;
      DigitsOnlyHead(x, rest);
      if IsDigit(x) && fake != [] {
        AppliedDigits(rest, fake[1..]);
        DigitsOnlyHead(fake[0], ApplyDigits(rest, fake[1..]));
        MergedHead(fake, x, DigitsOnly(rest));
      } else {
        AppliedDigits(rest, fake);
        DigitsOnlyHead(x, ApplyDigits(rest, fake));
        MergedKeeps(fake, x, DigitsOnly(rest));
      }
    }
  }

  /** A value whose digits are as many as those of the fake one takes on exactly those digits,
      with every separator left in place. */
  lemma FakeFits(value: Text, fake: Text)
    requires AllDigits(fake) && |DigitsOnly(value)| == |fake|
    ensures DigitsOnly(ApplyDigits(value, fake)) == fake
    ensures forall k :: 0 <= k < |value| && !IsDigit(value[k]) ==> ApplyDigits(value, fake)[k] == value[k]
  {
    AppliedDigits(value, fake);
  }

  // ---------------------------------------------------------------- synthetic cards

  /** A card the generator can draw. */
  ghost predicate CardOf(body: Text, card: Text) {
    && |body| == 15 && AllDigits(body) && (body[0] == DIGIT_ZERO + 4 || body[0] == DIGIT_ZERO + 5)
    && card == body + [DIGIT_ZERO + CheckDigit(body)]
  }

  /** Whatever card is drawn and whatever separators the value has, the masked value passes. */
  ghost predicate AlwaysPasses(n: nat) {
    forall value, body, card :: |DigitsOnly(value)| == n && CardOf(body, card) ==>
      LuhnValid(DigitsOnly(ApplyDigits(value, card)))
  }

  lemma SixteenPasses(value: Text, body: Text, card: Text)
    requires |DigitsOnly(value)| == 16 && CardOf(body, card)
    ensures LuhnValid(DigitsOnly(ApplyDigits(value, card)))
  {
    CheckDigitIsRight(body, CheckDigit(body));
    FakeFits(value, card);
  }

  function Zeros(n: nat): (z: Text)
    ensures |z| == n && forall k :: 0 <= k < n ==> z[k] == DIGIT_ZERO
  {
    seq(n, _ => DIGIT_ZERO)
  }

  lemma {:induction false} ZerosSum(n: nat, double: bool)
    ensures LuhnSum(Zeros(n), double) == 0
  {
    if n > 0 {
      assert Zeros(n)[..n - 1] == Zeros(n - 1);
      ZerosSum(n - 1, !double);
    }
  }

  const FOUR: Text := [52]

  /** The card drawn as a four and zeros. */
  lemma RoundCard() returns (body: Text, card: Text)
    ensures CardOf(body, card) && card[..15] == FOUR + Zeros(14)
  {
    body := FOUR + Zeros(14);
    card := body + [DIGIT_ZERO + CheckDigit(body)];
  }

  lemma FourAndZeros(n: nat)
    ensures !LuhnValid(FOUR + Zeros(n))
  {
    SumSplits(FOUR, Zeros(n), false);
    ZerosSum(n, false);
    SumOfOne(52, Flip(false, n));
  }

  lemma ShortCardFails(n: nat) returns (value: Text, body: Text, card: Text)
    requires 13 <= n < 16
    ensures |DigitsOnly(value)| == n && CardOf(body, card)
    ensures !LuhnValid(DigitsOnly(ApplyDigits(value, card)))
  {
    value := Zeros(n);
    body, card := RoundCard();
    DigitsOfDigits(value);
    AppliedDigits(value, card);
    assert card[..n] == card[..15][..n] == FOUR + Zeros(n - 1);
    FourAndZeros(n - 1);
  }

  lemma TwoLastDigits(front: Text) returns (last: Byte)
    ensures IsDigit(last) && !LuhnValid(front + [last])
  {
    last := if CheckDigit(front) == 0 then DIGIT_ZERO + 1 else DIGIT_ZERO;
    CheckDigitIsRight(front, last - DIGIT_ZERO);
  }

  lemma LongCardFails(n: nat) returns (value: Text, body: Text, card: Text)
    requires 16 < n <= 19
    ensures |DigitsOnly(value)| == n && CardOf(body, card)
    ensures !LuhnValid(DigitsOnly(ApplyDigits(value, card)))
  {
    body, card := RoundCard();
    var last := TwoLastDigits(card + Zeros(n - 17));
    value := Zeros(n - 1) + [last];
    DigitsOfDigits(value);
    AppliedDigits(value, card);
    assert value[16..] == Zeros(n - 17) + [last];
    assert card + value[16..] == card + Zeros(n - 17) + [last];
  }

  /** Synthetic cards are built for 13 to 19 digits. They are sure to pass the Luhn check for
      exactly one of these lengths: other values keep a cut or lengthened card. */
  lemma CardsPassExactlyAtSixteen(n: nat)
    requires 13 <= n <= 19
    ensures AlwaysPasses(n) <==> n == 16
  {
    if n == 16 {
      forall value, body, card | |DigitsOnly(value)| == n && CardOf(body, card)
        ensures LuhnValid(DigitsOnly(ApplyDigits(value, card)))
      {
        SixteenPasses(value, body, card);
      }
    } else if n < 16 {
      var value, body, card := ShortCardFails(n);
    } else {
      var value, body, card := LongCardFails(n);
    }
  }

  // ---------------------------------------------------------------- INN

  const W10: seq<int> := [2, 4, 10, 3, 5, 9, 4, 6, 8]
  const W11: seq<int> := [7, 2, 4, 10, 3, 5, 9, 4, 6, 8]
  const W12: seq<int> := [3, 7, 2, 4, 10, 3, 5, 9, 4, 6, 8]

  function WeightedSum(d: Text, weights: seq<int>, n: nat): int
    requires n <= |d| && n <= |weights|
  {
    if n == 0 then 0 else WeightedSum(d, weights, n - 1) + (d[n - 1] - DIGIT_ZERO) * weights[n - 1]
  }

  /** The control digit of the first digits, one per weight. */
  function Control(d: Text, weights: seq<int>): (c: int)
    requires |weights| <= |d|
    ensures 0 <= c <= 9
  {
    WeightedSum(d, weights, |weights|) % 11 % 10
  }

  method InnControl(d: Text, weights: seq<int>) returns (c: Byte)
    requires |weights| <= |d| && AllDigits(d) && forall k :: 0 <= k < |weights| ==> weights[k] >= 0
    ensures c == DIGIT_ZERO + Control(d, weights)
  {
    var sum := 0;
    for i := 0 to |weights|
      invariant sum == WeightedSum(d, weights, i)
    {
      sum := sum + (d[i] - DIGIT_ZERO) * weights[i];
    }
    c := DIGIT_ZERO + sum % 11 % 10;
  }

  lemma {:induction false} SumOfPrefix(d: Text, more: Text, weights: seq<int>, n: nat)
    requires n <= |d| && n <= |weights|
    ensures WeightedSum(d + more, weights, n) == WeightedSum(d, weights, n)
  {
    if n > 0 {
      SumOfPrefix(d, more, weights, n - 1);
    }
  }

  predicate Inn10Valid(d: Text)
    requires |d| == 10
  {
    Control(d, W10) == d[9] - DIGIT_ZERO
  }

  predicate Inn12Valid(d: Text)
    requires |d| == 12
  {
    Control(d, W11) == d[10] - DIGIT_ZERO && Control(d, W12) == d[11] - DIGIT_ZERO
  }

  /** The validator, by number of digits. */
  predicate InnValid(value: Text) {
    var d := DigitsOnly(value);
    if |d| == 10 then Inn10Valid(d) else if |d| == 12 then Inn12Valid(d) else false
  }

  method Inn(value: Text) returns (ok: bool)
    ensures ok <==> InnValid(value)
  {
    var d := CollectDigits(value);
    if |d| == 10 {
      var c := InnControl(d, W10);
      return c == d[9];
    }
    if |d| == 12 {
      var c11 := InnControl(d, W11);
      var c12 := InnControl(d, W12);
      return c11 == d[10] && c12 == d[11];
    }
    return false;
  }

  function Digit(d: Text, k: nat): int
    requires k < |d|
  {
    d[k] as int - DIGIT_ZERO as int
  }

  lemma WeightedUnrolls(d: Text, weights: seq<int>)
    ensures forall n {:trigger WeightedSum(d, weights, n)} :: 0 < n <= |d| && n <= |weights| ==>
              WeightedSum(d, weights, n) == WeightedSum(d, weights, n - 1) + Digit(d, n - 1) * weights[n - 1]
  {}

  /** The validator of 10 digits, its sum written out. */
  lemma Inn10WrittenOut(value: Text)
    requires |DigitsOnly(value)| == 10
    ensures var d := DigitsOnly(value);
            InnValid(value) <==>
              (2 * Digit(d, 0) + 4 * Digit(d, 1) + 10 * Digit(d, 2) + 3 * Digit(d, 3) + 5 * Digit(d, 4)
               + 9 * Digit(d, 5) + 4 * Digit(d, 6) + 6 * Digit(d, 7) + 8 * Digit(d, 8)) % 11 % 10 == Digit(d, 9)
  {
    WeightedUnrolls(DigitsOnly(value), W10);
  }

  function FirstSum(d: Text): int
    requires |d| >= 10
  {
    7 * Digit(d, 0) + 2 * Digit(d, 1) + 4 * Digit(d, 2) + 10 * Digit(d, 3) + 3 * Digit(d, 4)
    + 5 * Digit(d, 5) + 9 * Digit(d, 6) + 4 * Digit(d, 7) + 6 * Digit(d, 8) + 8 * Digit(d, 9)
  }

  function SecondSum(d: Text): int
    requires |d| >= 11
  {
    3 * Digit(d, 0) + 7 * Digit(d, 1) + 2 * Digit(d, 2) + 4 * Digit(d, 3) + 10 * Digit(d, 4) + 3 * Digit(d, 5)
    + 5 * Digit(d, 6) + 9 * Digit(d, 7) + 4 * Digit(d, 8) + 6 * Digit(d, 9) + 8 * Digit(d, 10)
  }

  lemma FirstSumIs(d: Text)
    requires |d| >= 10
    ensures WeightedSum(d, W11, 10) == FirstSum(d)
  {
    WeightedUnrolls(d, W11);
  }

  lemma SecondSumIs(d: Text)
    requires |d| >= 11
    ensures WeightedSum(d, W12, 11) == SecondSum(d)
  {
    WeightedUnrolls(d, W12);
  }

  /** The validator of 12 digits, by its two sums written out. */
  lemma Inn12WrittenOut(value: Text)
    requires |DigitsOnly(value)| == 12
    ensures var d := DigitsOnly(value);
            InnValid(value) <==> FirstSum(d) % 11 % 10 == Digit(d, 10) && SecondSum(d) % 11 % 10 == Digit(d, 11)
  {
    FirstSumIs(DigitsOnly(value));
    SecondSumIs(DigitsOnly(value));
  }

  function Inn12Of(base: Text): Text
    requires |base| == 10
  {
    var with11 := base + [DIGIT_ZERO + Control(base, W11)];
    with11 + [DIGIT_ZERO + Control(with11, W12)]
  }

  /** A 12-digit INN passes exactly when its two control digits are the generated ones. */
  lemma Inn12Agrees(base: Text, c11: Byte, c12: Byte)
    requires |base| == 10 && AllDigits(base) && IsDigit(c11) && IsDigit(c12)
    ensures InnValid(base + [c11] + [c12]) <==> base + [c11] + [c12] == Inn12Of(base)
  {
    var d, good := base + [c11] + [c12], Inn12Of(base);
    DigitsOfDigits(d);
    assert d == base + ([c11] + [c12]);
    SumOfPrefix(base, [c11] + [c12], W11, 10);
    SumOfPrefix(base + [c11], [c12], W12, 11);
    assert d[10] == c11 && d[11] == c12;
    assert good[10] == DIGIT_ZERO + Control(base, W11);
    assert good[11] == DIGIT_ZERO + Control(base + [good[10]], W12);
    if d == good {
      assert c11 == good[10];
    }
  }

  /** A 10-digit INN passes exactly when its last digit is the generated one. */
  lemma Inn10Agrees(base: Text, c: Byte)
    requires |base| == 9 && AllDigits(base) && IsDigit(c)
    ensures InnValid(base + [c]) <==> c == DIGIT_ZERO + Control(base, W10)
  {
    DigitsOfDigits(base + [c]);
    SumOfPrefix(base, [c], W10, 9);
  }

  // ---------------------------------------------------------------- SNILS

  function SnilsSum(d: Text, n: nat): int
    requires n <= 9 && n <= |d|
  {
    if n == 0 then 0 else SnilsSum(d, n - 1) + (d[n - 1] - DIGIT_ZERO) * (9 - (n - 1))
  }

  lemma {:induction false} SnilsSumBounds(d: Text, n: nat)
    requires n <= 9 && n <= |d| && AllDigits(d)
    ensures 0 <= SnilsSum(d, n) <= 81 * n
  {
    if n > 0 {
      SnilsSumBounds(d, n - 1);
    }
  }

  lemma {:induction false} SnilsSumPrefix(d: Text, more: Text, n: nat)
    requires n <= 9 && n <= |d|
    ensures SnilsSum(d + more, n) == SnilsSum(d, n)
  {
    if n > 0 {
      SnilsSumPrefix(d, more, n - 1);
    }
  }

  function SnilsControl(d: Text): int
    requires |d| >= 9
  {
    var sum := SnilsSum(d, 9);
    if sum < 100 then sum
    else if sum == 100 || sum == 101 then 0
    else if sum % 101 == 100 then 0
    else sum % 101
  }

  /** The branches amount to one remainder after the other. */
  lemma ControlIsRemainder(d: Text)
    requires |d| >= 9 && AllDigits(d)
    ensures SnilsControl(d) == SnilsSum(d, 9) % 101 % 100
  {
    SnilsSumBounds(d, 9);
  }

  method ControlNumber(d: Text) returns (control: int)
    requires |d| >= 9
    ensures control == SnilsControl(d)
    ensures AllDigits(d) ==> control == SnilsSum(d, 9) % 101 % 100
  {
    var sum := 0;
    for i := 0 to 9
      invariant sum == SnilsSum(d, i)
    {
      sum := sum + (d[i] - DIGIT_ZERO) * (9 - i);
    }
    if sum < 100 {
      control := sum;
    } else if sum == 100 || sum == 101 {
      control := 0;
    } else {
      control := sum % 101;
      if control == 100 {
        control := 0;
      }
    }
    if AllDigits(d) {
      ControlIsRemainder(d);
    }
  }

  function TwoDigits(n: nat): Text {
    if n < 10 then [DIGIT_ZERO] + Decimal(n) else Decimal(n)
  }

  lemma TwoDigitsAre(n: nat)
    requires n < 100
    ensures TwoDigits(n) == [DIGIT_ZERO + n / 10, DIGIT_ZERO + n % 10]
  {
    assert Digits(0) == [];
    if 0 < n < 10 {
      assert Digits(n) == Digits(0) + [DIGIT_ZERO + n];
    } else if n >= 10 {
      assert Digits(n / 10) == Digits(0) + [DIGIT_ZERO + n / 10];
      assert Digits(n) == Digits(n / 10) + [DIGIT_ZERO + n % 10];
    }
  }

  predicate SnilsValid(value: Text) {
    var d := DigitsOnly(value);
    |d| == 11 && SnilsControl(d) == (d[9] - DIGIT_ZERO) * 10 + (d[10] - DIGIT_ZERO)
  }

  method Snils(value: Text) returns (ok: bool)
    ensures ok <==> SnilsValid(value)
  {
    var d := CollectDigits(value);
    if |d| != 11 {
      return false;
    }
    var control := ControlNumber(d);
    return control == (d[9] - DIGIT_ZERO) * 10 + (d[10] - DIGIT_ZERO);
  }

  /** The validator, its sum written out. */
  lemma SnilsWrittenOut(value: Text)
    ensures var d := DigitsOnly(value);
            SnilsValid(value) <==>
              && |d| == 11
              && (9 * Digit(d, 0) + 8 * Digit(d, 1) + 7 * Digit(d, 2) + 6 * Digit(d, 3) + 5 * Digit(d, 4)
                  + 4 * Digit(d, 5) + 3 * Digit(d, 6) + 2 * Digit(d, 7) + Digit(d, 8)) % 101 % 100
                 == 10 * Digit(d, 9) + Digit(d, 10)
  {
    var d := DigitsOnly(value);
    if |d| == 11 {
      ControlIsRemainder(d);
      SnilsUnrolls(d);
    }
  }

  lemma SnilsUnrolls(d: Text)
    requires |d| >= 9
    ensures SnilsSum(d, 9) == 9 * Digit(d, 0) + 8 * Digit(d, 1) + 7 * Digit(d, 2) + 6 * Digit(d, 3) + 5 * Digit(d, 4)
                              + 4 * Digit(d, 5) + 3 * Digit(d, 6) + 2 * Digit(d, 7) + Digit(d, 8)
  {
    SnilsSteps(d);
  }

  lemma SnilsSteps(d: Text)
    requires |d| >= 9
    ensures forall n {:trigger SnilsSum(d, n)} :: 0 < n <= 9 ==>
              SnilsSum(d, n) == SnilsSum(d, n - 1) + Digit(d, n - 1) * (10 - n)
  {}

  /** Eleven digits pass exactly when the last two are the generated control number. */
  lemma SnilsAgrees(base: Text, x: Byte, y: Byte)
    requires |base| == 9 && AllDigits(base) && IsDigit(x) && IsDigit(y)
    ensures 0 <= SnilsControl(base) < 100
    ensures SnilsValid(base + [x, y]) <==> [x, y] == TwoDigits(SnilsControl(base))
  {
    SnilsSumBounds(base, 9);
    SnilsSumPrefix(base, [x, y], 9);
    var control := SnilsControl(base);
    assert 0 <= control < 100;
    TwoDigitsAre(control);
    DigitsOfDigits(base + [x, y]);
    assert (base + [x, y])[9] == x && (base + [x, y])[10] == y;
  }

  /** A synthetic INN or SNILS written over a value with separators passes its validator. */
  lemma SyntheticNumbersPass(value: Text, base: Text)
    requires AllDigits(base)
    ensures |DigitsOnly(value)| == 12 && |base| == 10 ==> InnValid(ApplyDigits(value, Inn12Of(base)))
    ensures |DigitsOnly(value)| == 11 && |base| == 9 && 0 <= SnilsControl(base) ==>
              SnilsValid(ApplyDigits(value, base + TwoDigits(SnilsControl(base))))
  {
    if |DigitsOnly(value)| == 12 && |base| == 10 {
      var fake := Inn12Of(base);
      Inn12Agrees(base, fake[10], fake[11]);
      assert base + [fake[10]] + [fake[11]] == fake;
      FakeFits(value, fake);
      DigitsOfDigits(fake);
    }
    if |DigitsOnly(value)| == 11 && |base| == 9 && 0 <= SnilsControl(base) {
      var control := SnilsControl(base);
      SnilsAgrees(base, DIGIT_ZERO, DIGIT_ZERO);
      TwoDigitsAre(control);
      var x, y := DIGIT_ZERO + control / 10, DIGIT_ZERO + control % 10;
      SnilsAgrees(base, x, y);
      FakeFits(value, base + [x, y]);
      DigitsOfDigits(base + [x, y]);
    }
  }
}
