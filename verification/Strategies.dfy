/** Masking strategies and the per-document state they share. */
module Strategies {
  import opened Bytes
  import opened Spans

  // ---------------------------------------------------------------- tokens

  function Digits(n: nat): (s: Text)
    ensures forall k :: 0 <= k < |s| ==> IsDigit(s[k])
    ensures n > 0 ==> s != [] && s[0] != DIGIT_ZERO
  {
    if n == 0 then [] else Digits(n / 10) + [DIGIT_ZERO + n % 10]
  }

  function Decimal(n: nat): (s: Text)
    ensures s != [] && forall k :: 0 <= k < |s| ==> IsDigit(s[k])
    ensures n > 0 ==> s[0] != DIGIT_ZERO
  {
    if n == 0 then [DIGIT_ZERO] else Digits(n)
  }

  function Value(s: Text): int {
    if s == [] then 0 else 10 * Value(s[..|s| - 1]) + (s[|s| - 1] - DIGIT_ZERO)
  }

  lemma {:induction false} ValueOfDigits(n: nat)
    ensures Value(Digits(n)) == n
  {
    if n > 0 {
      ValueOfDigits(n / 10);
      var s := Digits(n);
      assert s[..|s| - 1] == Digits(n / 10);
    }
  }

  lemma ValueOfDecimal(n: nat)
    ensures Value(Decimal(n)) == n
  {
    ValueOfDigits(n);
    if n == 0 {
      assert Decimal(0)[..0] == [];
    }
  }

  method Itoa(n: nat) returns (b: Text)
    ensures b == Decimal(n)
  {
    if n == 0 {
      return [DIGIT_ZERO];
    }
    b := [];
    var m := n;
    while m > 0
      invariant Digits(n) == Digits(m) + b
    {
      assert Digits(m) == Digits(m / 10) + [DIGIT_ZERO + m % 10];
      b := [DIGIT_ZERO + m % 10] + b;
      m := m / 10;
    }
  }

  /** Category names are lower-case ASCII words joined by underscores. */
  ghost predicate CategoryName(c: Category) {
    forall k :: 0 <= k < |c| ==> 97 <= c[k] <= 122 || c[k] == UNDERSCORE
  }

  function Upper(c: Text): (u: Text)
    ensures |u| == |c|
    ensures forall k :: 0 <= k < |c| ==> u[k] == if 97 <= c[k] <= 122 then c[k] - 32 else c[k]
  {
    if c == [] then [] else [if 97 <= c[0] <= 122 then c[0] - 32 else c[0]] + Upper(c[1..])
  }

  /** [CATEGORY_N] */
  function Token(c: Category, n: nat): Text {
    [OPEN_BRACKET] + Upper(c) + [UNDERSCORE] + Decimal(n) + [CLOSE_BRACKET]
  }

  /** One '[' first, one ']' last, none in between. */
  ghost predicate BracketToken(t: Text) {
    && |t| >= 2 && t[0] == OPEN_BRACKET && t[|t| - 1] == CLOSE_BRACKET
    && forall k :: 0 < k < |t| - 1 ==> t[k] != OPEN_BRACKET && t[k] != CLOSE_BRACKET
  }

  lemma TokenIsBracketed(c: Category, n: nat)
    requires CategoryName(c)
    ensures BracketToken(Token(c, n))
  {
    var t, u, d := Token(c, n), Upper(c), Decimal(n);
    forall k | 0 < k < |t| - 1 ensures t[k] != OPEN_BRACKET && t[k] != CLOSE_BRACKET {
      assert t[k] == if k <= |u| then u[k - 1] else if k == |u| + 1 then UNDERSCORE else d[k - |u| - 2];
    }
  }

  /** The first digit of a token comes right after its category. */
  lemma TokenByte(c: Category, n: nat, k: int)
    requires CategoryName(c) && 0 < k < |Token(c, n)| - 1
    ensures IsDigit(Token(c, n)[k]) <==> k >= |c| + 2
  {
    var t, u, d := Token(c, n), Upper(c), Decimal(n);
    assert t[k] == if k <= |u| then u[k - 1] else if k == |u| + 1 then UNDERSCORE else d[k - |u| - 2];
  }

  /** A token, place by place: the category in capitals, an underscore, the number without leading
      zeros. */
  lemma TokenReads(c: Category, n: nat)
    requires CategoryName(c) && n > 0
    ensures var t := Token(c, n);
            && |t| > |c| + 3 && t[0] == OPEN_BRACKET && t[|t| - 1] == CLOSE_BRACKET && t[|c| + 1] == UNDERSCORE
            && (forall k :: 0 <= k < |c| ==> t[k + 1] == if c[k] == UNDERSCORE then c[k] else c[k] - 32)
            && (forall k :: |c| + 2 <= k < |t| - 1 ==> IsDigit(t[k]))
            && t[|c| + 2] != DIGIT_ZERO && Value(t[|c| + 2..|t| - 1]) == n
  {
    var t, u, d := Token(c, n), Upper(c), Decimal(n);
    assert forall k :: 0 < k < |t| - 1 ==>
      t[k] == if k <= |u| then u[k - 1] else if k == |u| + 1 then UNDERSCORE else d[k - |u| - 2];
    assert t[|c| + 2..|t| - 1] == d;
    ValueOfDecimal(n);
  }

  lemma TokenInjective(c: Category, n: nat, c': Category, n': nat)
    requires CategoryName(c) && CategoryName(c') && Token(c, n) == Token(c', n')
    ensures c == c' && n == n'
  {
    var t := Token(c, n);
    TokenByte(c, n, |c| + 2);
    TokenByte(c', n', |c| + 2);
    TokenByte(c, n, |c'| + 2);
    TokenByte(c', n', |c'| + 2);
    assert |c| == |c'|;
    forall k | 0 <= k < |c| ensures c[k] == c'[k] {
      assert t[k + 1] == Upper(c)[k] == Upper(c')[k];
    }
    assert Decimal(n) == t[|c| + 2..|t| - 1] == Decimal(n');
    ValueOfDecimal(n);
    ValueOfDecimal(n');
  }

  // ---------------------------------------------------------------- strategies

  /** All strategies look the value up in the document memo first and record what they return.
      They differ in the value they give to a new one: the full and partial strategies always
      compute a shape from the value, the token strategy never does and numbers the value
      instead, the synthetic strategy does one or the other. */
  datatype Strategy = Strategy(name: Text, shape: (Text, Category) -> Option<Text>)

  datatype Doc = Doc(memo: map<Text, Text>, issued: map<Category, nat>)

  const EMPTY_DOC := Doc(map[], map[])

  function Issued(d: Doc, c: Category): nat {
    if c in d.issued then d.issued[c] else 0
  }

  function Masked(s: Strategy, d: Doc, value: Text, c: Category): (Doc, Text) {
    if value in d.memo && d.memo[value] != [] then (d, d.memo[value])
    else match s.shape(value, c)
      case Some(m) => (d.(memo := d.memo[value := m]), m)
      case None =>
        var n := Issued(d, c) + 1;
        (Doc(d.memo[value := Token(c, n)], d.issued[c := n]), Token(c, n))
  }

  class DocState {
    var memo: map<Text, Text>
    var issued: map<Category, nat>

    ghost function View(): Doc
      reads this
    {
      Doc(memo, issued)
    }

    constructor ()
      ensures View() == EMPTY_DOC
    {
      memo, issued := map[], map[];
    }

    method Memo(value: Text) returns (m: Text)
      ensures m == if value in memo then memo[value] else []
    {
      m := if value in memo then memo[value] else [];
    }

    method Remember(value: Text, replacement: Text)
      modifies this
      ensures memo == old(memo)[value := replacement] && issued == old(issued)
    {
      memo := memo[value := replacement];
    }

    method Next(c: Category) returns (n: nat)
      modifies this
      ensures n == Issued(old(View()), c) + 1
      ensures memo == old(memo) && issued == old(issued)[c := n]
    {
      n := (if c in issued then issued[c] else 0) + 1;
      issued := issued[c := n];
    }

    method Mask(s: Strategy, value: Text, c: Category) returns (m: Text)
      modifies this
      ensures (View(), m) == Masked(s, old(View()), value, c)
    {
      m := Memo(value);
      if m != [] {
        return;
      }
      var shaped := s.shape(value, c);
      if shaped.Some? {
        m := shaped.value;
      } else {
        var n := Next(c);
        var number := Itoa(n);
        m := [OPEN_BRACKET] + Upper(c) + [UNDERSCORE] + number + [CLOSE_BRACKET];
      }
      Remember(value, m);
    }
  }

  /** The strategy gives no non-empty value an empty shape. Tokens are never empty. */
  ghost predicate KeepsNonEmpty(s: Strategy) {
    forall v: Text, c: Category :: v != [] && s.shape(v, c).Some? ==> s.shape(v, c).value != []
  }

  /** The token strategy: no value gets a shape, every new one is numbered. */
  ghost predicate Numbers(s: Strategy) {
    forall v: Text, c: Category :: s.shape(v, c) == None
  }
}
