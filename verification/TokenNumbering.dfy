/** What the document state guarantees over a whole document: a numbering of the values that
    get tokens, and equal masks for equal values. */
module TokenNumbering {
  import opened Bytes
  import opened Spans
  import opened Strategies

  datatype MaskCall = MaskCall(value: Text, category: Category)

  ghost predicate NamedCategories(calls: seq<MaskCall>) {
    forall i :: 0 <= i < |calls| ==> CategoryName(calls[i].category)
  }

  // ---------------------------------------------------------------- sessions

  /** The document and what its Mask calls returned, in order. */
  datatype Session = Session(doc: Doc, outs: seq<Text>)

  function Advance(s: Strategy, at: Session, call: MaskCall): Session {
    Session(Masked(s, at.doc, call.value, call.category).0,
            at.outs + [Masked(s, at.doc, call.value, call.category).1])
  }

  /** Any sequence of Mask calls on one document, whatever messages the values came from. */
  function MaskAll(s: Strategy, calls: seq<MaskCall>, n: nat): Session
    requires n <= |calls|
  {
    if n == 0 then Session(EMPTY_DOC, []) else Advance(s, MaskAll(s, calls, n - 1), calls[n - 1])
  }

  lemma {:induction false} OutputCount(s: Strategy, calls: seq<MaskCall>, n: nat)
    requires n <= |calls|
    ensures |MaskAll(s, calls, n).outs| == n
  {
    if n > 0 {
      OutputCount(s, calls, n - 1);
    }
  }

  lemma {:induction false} OutputStays(s: Strategy, calls: seq<MaskCall>, i: nat, n: nat)
    requires i < n <= |calls|
    ensures i < |MaskAll(s, calls, i + 1).outs| && |MaskAll(s, calls, n).outs| == n
    ensures MaskAll(s, calls, n).outs[i] == MaskAll(s, calls, i + 1).outs[i]
  {
    OutputCount(s, calls, i + 1);
    OutputCount(s, calls, n);
    if i + 1 < n {
      OutputStays(s, calls, i, n - 1);
      assert MaskAll(s, calls, n).outs[..n - 1] == MaskAll(s, calls, n - 1).outs;
    }
  }

  /** The call takes the next number of its category: its value has no mask yet, and gets no shape. */
  predicate Issues(s: Strategy, d: Doc, call: MaskCall) {
    && !(call.value in d.memo && d.memo[call.value] != [])
    && s.shape(call.value, call.category) == None
  }

  ghost predicate IssuesAt(s: Strategy, calls: seq<MaskCall>, i: nat)
    requires i < |calls|
  {
    Issues(s, MaskAll(s, calls, i).doc, calls[i])
  }

  /** The value of call `i` has been numbered, then or before. */
  ghost predicate Numbered(s: Strategy, calls: seq<MaskCall>, i: nat)
    requires i < |calls|
  {
    exists j :: 0 <= j <= i && calls[j].value == calls[i].value && IssuesAt(s, calls, j)
  }

  // ---------------------------------------------------------------- the numbering alone

  datatype TokenId = TokenId(category: Category, number: nat)

  /** The token each numbered value got and the counter of each category. */
  datatype Ledger = Ledger(tag: map<Text, TokenId>, issued: map<Category, nat>)

  function Count(l: Ledger, c: Category): nat {
    if c in l.issued then l.issued[c] else 0
  }

  function Enter(l: Ledger, call: MaskCall): Ledger {
    var k := TokenId(call.category, Count(l, call.category) + 1);
    Ledger(l.tag[call.value := k], l.issued[k.category := k.number])
  }

  function LedgerAfter(s: Strategy, calls: seq<MaskCall>, n: nat): Ledger
    requires n <= |calls|
  {
    if n == 0 then Ledger(map[], map[])
    else if Issues(s, MaskAll(s, calls, n - 1).doc, calls[n - 1]) then Enter(LedgerAfter(s, calls, n - 1), calls[n - 1])
    else LedgerAfter(s, calls, n - 1)
  }

  ghost predicate Given(l: Ledger, c: Category, n: nat) {
    exists v :: v in l.tag && l.tag[v].category == c && l.tag[v].number == n
  }

  /** Numbers in range, no token given twice, and every number issued given to some value. */
  ghost predicate Sound(l: Ledger) {
    && (forall v :: v in l.tag ==> CategoryName(l.tag[v].category) && 1 <= l.tag[v].number <= Count(l, l.tag[v].category))
    && (forall v, w :: v in l.tag && w in l.tag && l.tag[v] == l.tag[w] ==> v == w)
    && (forall c: Category, n: nat :: 1 <= n <= Count(l, c) ==> Given(l, c, n))
  }

  lemma EnterKeepsSound(l: Ledger, call: MaskCall)
    requires Sound(l) && CategoryName(call.category) && call.value !in l.tag
    ensures Sound(Enter(l, call))
  {
    var l', v := Enter(l, call), call.value;
    var k := l'.tag[v];
    assert forall c: Category :: Count(l', c) == if c == k.category then k.number else Count(l, c);
    forall c: Category, n: nat | 1 <= n <= Count(l', c) ensures Given(l', c, n) {
      if c == k.category && n == k.number {
        assert v in l'.tag;
      } else {
        assert Given(l, c, n);
        var w :| w in l.tag && l.tag[w].category == c && l.tag[w].number == n;
        assert l'.tag[w] == l.tag[w];
      }
    }
  }

  function Rendered(k: TokenId): Text {
    Token(k.category, k.number)
  }

  /** The document holds the token of every numbered value, and the same counters. */
  ghost predicate Renders(d: Doc, l: Ledger) {
    && d.issued == l.issued
    && forall v {:trigger v in l.tag} :: v in l.tag ==> v in d.memo && d.memo[v] == Rendered(l.tag[v])
  }

  lemma TokensNotEmpty(d: Doc, l: Ledger)
    requires Renders(d, l)
    ensures forall v :: v in l.tag ==> d.memo[v] != []
  {
    forall v | v in l.tag ensures d.memo[v] != [] {
      assert Rendered(l.tag[v])[0] == OPEN_BRACKET;
    }
  }

  lemma IssueRenders(s: Strategy, d: Doc, l: Ledger, call: MaskCall)
    requires Renders(d, l) && Issues(s, d, call)
    ensures call.value !in l.tag
    ensures Renders(Masked(s, d, call.value, call.category).0, Enter(l, call))
    ensures Masked(s, d, call.value, call.category).1 == Rendered(Enter(l, call).tag[call.value])
  {
    TokensNotEmpty(d, l);
  }

  lemma NoIssueRenders(s: Strategy, d: Doc, l: Ledger, call: MaskCall)
    requires Renders(d, l) && !Issues(s, d, call)
    ensures Renders(Masked(s, d, call.value, call.category).0, l)
    ensures call.value in l.tag ==> Masked(s, d, call.value, call.category).1 == Rendered(l.tag[call.value])
  {
    TokensNotEmpty(d, l);
  }

  lemma {:induction false} DocRenders(s: Strategy, calls: seq<MaskCall>, n: nat)
    requires n <= |calls|
    ensures Renders(MaskAll(s, calls, n).doc, LedgerAfter(s, calls, n))
  {
    if n > 0 {
      DocRenders(s, calls, n - 1);
      if IssuesAt(s, calls, n - 1) {
        IssueRenders(s, MaskAll(s, calls, n - 1).doc, LedgerAfter(s, calls, n - 1), calls[n - 1]);
      } else {
        NoIssueRenders(s, MaskAll(s, calls, n - 1).doc, LedgerAfter(s, calls, n - 1), calls[n - 1]);
      }
    }
  }

  /** The mask that call `i` returns. */
  function OutputAt(s: Strategy, calls: seq<MaskCall>, i: nat): Text
    requires i < |calls|
  {
    Masked(s, MaskAll(s, calls, i).doc, calls[i].value, calls[i].category).1
  }

  /** What one call does to the ledger. */
  lemma LedgerNext(s: Strategy, calls: seq<MaskCall>, i: nat)
    requires i < |calls|
    ensures var l, l', v := LedgerAfter(s, calls, i), LedgerAfter(s, calls, i + 1), calls[i].value;
            && (IssuesAt(s, calls, i) ==> v !in l.tag && l' == Enter(l, calls[i]))
            && (!IssuesAt(s, calls, i) ==> l' == l)
            && (v in l'.tag ==> OutputAt(s, calls, i) == Rendered(l'.tag[v]))
  {
    DocRenders(s, calls, i);
    if IssuesAt(s, calls, i) {
      IssueRenders(s, MaskAll(s, calls, i).doc, LedgerAfter(s, calls, i), calls[i]);
    } else {
      NoIssueRenders(s, MaskAll(s, calls, i).doc, LedgerAfter(s, calls, i), calls[i]);
    }
  }

  lemma {:induction false} LedgerSound(s: Strategy, calls: seq<MaskCall>, n: nat)
    requires NamedCategories(calls) && n <= |calls|
    ensures Sound(LedgerAfter(s, calls, n))
  {
    if n > 0 {
      LedgerSound(s, calls, n - 1);
      LedgerNext(s, calls, n - 1);
      if IssuesAt(s, calls, n - 1) {
        EnterKeepsSound(LedgerAfter(s, calls, n - 1), calls[n - 1]);
      }
    }
  }

  /** A value keeps its tag for good. */
  lemma {:induction false} TagsStay(s: Strategy, calls: seq<MaskCall>, m: nat, n: nat, v: Text)
    requires m <= n <= |calls| && v in LedgerAfter(s, calls, m).tag
    ensures v in LedgerAfter(s, calls, n).tag
    ensures LedgerAfter(s, calls, n).tag[v] == LedgerAfter(s, calls, m).tag[v]
    decreases n
  {
    if m < n {
      TagsStay(s, calls, m, n - 1, v);
      LedgerNext(s, calls, n - 1);
    }
  }

  /** A tagged value got its tag from the call that issued it. */
  lemma {:induction false} TagHasCall(s: Strategy, calls: seq<MaskCall>, n: nat, v: Text) returns (i: nat)
    requires n <= |calls| && v in LedgerAfter(s, calls, n).tag
    ensures i < n && calls[i].value == v && IssuesAt(s, calls, i)
  {
    i := n - 1;
    if !IssuesAt(s, calls, n - 1) || calls[n - 1].value != v {
      i := TagHasCall(s, calls, n - 1, v);
    }
  }

  lemma IssuedIsTagged(s: Strategy, calls: seq<MaskCall>, j: nat, n: nat)
    requires j < n <= |calls| && IssuesAt(s, calls, j)
    ensures calls[j].value in LedgerAfter(s, calls, n).tag
  {
    LedgerNext(s, calls, j);
    TagsStay(s, calls, j + 1, n, calls[j].value);
  }

  lemma NumberedIsTagged(s: Strategy, calls: seq<MaskCall>, i: nat)
    requires i < |calls| && Numbered(s, calls, i)
    ensures calls[i].value in LedgerAfter(s, calls, i + 1).tag
  {
    var j: nat :| j <= i && calls[j].value == calls[i].value && IssuesAt(s, calls, j);
    IssuedIsTagged(s, calls, j, i + 1);
  }

  /** Every mask of a numbered value is the token of its tag. */
  lemma OutputRenders(s: Strategy, calls: seq<MaskCall>, n: nat, i: nat)
    requires i < n <= |calls| && Numbered(s, calls, i)
    ensures |MaskAll(s, calls, n).outs| == n
    ensures calls[i].value in LedgerAfter(s, calls, n).tag
    ensures MaskAll(s, calls, n).outs[i] == Rendered(LedgerAfter(s, calls, n).tag[calls[i].value])
  {
    NumberedIsTagged(s, calls, i);
    LedgerNext(s, calls, i);
    TagsStay(s, calls, i + 1, n, calls[i].value);
    OutputIs(s, calls, i, n);
  }

  lemma OutputIs(s: Strategy, calls: seq<MaskCall>, i: nat, n: nat)
    requires i < n <= |calls|
    ensures |MaskAll(s, calls, n).outs| == n && MaskAll(s, calls, n).outs[i] == OutputAt(s, calls, i)
  {
    OutputStays(s, calls, i, n);
    OutputCount(s, calls, i);
  }

  /** Over any sequence of Mask calls, whatever the strategy: the mask of a numbered value is a
      bracket token, and two of them are equal exactly when their values are. */
  lemma EqualTokensEqualValues(s: Strategy, calls: seq<MaskCall>, i: nat, j: nat)
    requires NamedCategories(calls) && i < |calls| && j < |calls|
    requires Numbered(s, calls, i) && Numbered(s, calls, j)
    ensures var outs := MaskAll(s, calls, |calls|).outs;
            && |outs| == |calls| && BracketToken(outs[i])
            && (outs[i] == outs[j] <==> calls[i].value == calls[j].value)
  {
    var n := |calls|;
    OutputRenders(s, calls, n, i);
    OutputRenders(s, calls, n, j);
    LedgerSound(s, calls, n);
    var l := LedgerAfter(s, calls, n);
    var a, b := l.tag[calls[i].value], l.tag[calls[j].value];
    TokenIsBracketed(a.category, a.number);
    if MaskAll(s, calls, n).outs[i] == MaskAll(s, calls, n).outs[j] {
      TokenInjective(a.category, a.number, b.category, b.number);
    }
  }

  /** A number is issued to one call only: the value is remembered afterwards. */
  lemma IssuedOnce(s: Strategy, calls: seq<MaskCall>, i: nat, j: nat)
    requires i < j < |calls| && IssuesAt(s, calls, i) && calls[i].value == calls[j].value
    ensures !IssuesAt(s, calls, j)
  {
    IssuedIsTagged(s, calls, i, j);
    LedgerNext(s, calls, j);
  }

  /** The call `i` issues the number `m` of the category. */
  ghost predicate IssuesNumber(s: Strategy, calls: seq<MaskCall>, c: Category, m: nat, i: nat) {
    && i < |calls| && IssuesAt(s, calls, i) && |MaskAll(s, calls, |calls|).outs| == |calls|
    && MaskAll(s, calls, |calls|).outs[i] == Token(c, m)
  }

  /** Whatever the strategy: the numbers issued for a category are exactly 1 up to its counter,
      each by a single call. */
  lemma IssuedNumbers(s: Strategy, calls: seq<MaskCall>, c: Category, m: nat)
    requires NamedCategories(calls) && CategoryName(c)
    ensures 1 <= m <= Issued(MaskAll(s, calls, |calls|).doc, c) <==> exists i :: IssuesNumber(s, calls, c, m, i)
    ensures forall i, j :: IssuesNumber(s, calls, c, m, i) && IssuesNumber(s, calls, c, m, j) ==> i == j
  {
    forall i, j | IssuesNumber(s, calls, c, m, i) && IssuesNumber(s, calls, c, m, j) ensures i == j {
      EqualTokensEqualValues(s, calls, i, j);
      if i < j {
        IssuedOnce(s, calls, i, j);
      } else if j < i {
        IssuedOnce(s, calls, j, i);
      }
    }
    var n := |calls|;
    DocRenders(s, calls, n);
    if 1 <= m <= Issued(MaskAll(s, calls, n).doc, c) {
      var i := NumberHasCall(s, calls, c, m);
    }
    if exists i :: IssuesNumber(s, calls, c, m, i) {
      var i :| IssuesNumber(s, calls, c, m, i);
      TokenInRange(s, calls, c, m, i);
    }
  }

  lemma NumberHasCall(s: Strategy, calls: seq<MaskCall>, c: Category, m: nat) returns (i: nat)
    requires NamedCategories(calls) && 1 <= m <= Issued(MaskAll(s, calls, |calls|).doc, c)
    ensures IssuesNumber(s, calls, c, m, i)
  {
    var n := |calls|;
    var l := LedgerAfter(s, calls, n);
    DocRenders(s, calls, n);
    LedgerSound(s, calls, n);
    assert 1 <= m <= Count(l, c) && Given(l, c, m);
    var v :| v in l.tag && l.tag[v].category == c && l.tag[v].number == m;
    i := TagHasCall(s, calls, n, v);
    OutputRenders(s, calls, n, i);
  }

  /** A numbered value's token has a number that was issued. */
  lemma TokenInRange(s: Strategy, calls: seq<MaskCall>, c: Category, m: nat, i: nat)
    requires NamedCategories(calls) && CategoryName(c) && i < |calls| && Numbered(s, calls, i)
    requires i < |MaskAll(s, calls, |calls|).outs| && MaskAll(s, calls, |calls|).outs[i] == Token(c, m)
    ensures 1 <= m <= Issued(MaskAll(s, calls, |calls|).doc, c)
  {
    var n := |calls|;
    DocRenders(s, calls, n);
    LedgerSound(s, calls, n);
    OutputRenders(s, calls, n, i);
    var a := LedgerAfter(s, calls, n).tag[calls[i].value];
    TokenInjective(a.category, a.number, c, m);
  }

  // ---------------------------------------------------------------- the token strategy

  lemma NumberedStep(s: Strategy, d: Doc, l: Ledger, call: MaskCall)
    requires Numbers(s) && d.memo.Keys <= l.tag.Keys
    ensures Masked(s, d, call.value, call.category).0.memo.Keys
         <= (if Issues(s, d, call) then Enter(l, call) else l).tag.Keys
  {}

  lemma {:induction false} NumberedOnly(s: Strategy, calls: seq<MaskCall>, n: nat)
    requires Numbers(s) && n <= |calls|
    ensures MaskAll(s, calls, n).doc.memo.Keys <= LedgerAfter(s, calls, n).tag.Keys
  {
    if n > 0 {
      NumberedOnly(s, calls, n - 1);
      NumberedStep(s, MaskAll(s, calls, n - 1).doc, LedgerAfter(s, calls, n - 1), calls[n - 1]);
    }
  }

  /** The token strategy numbers every value. */
  lemma AllNumbered(s: Strategy, calls: seq<MaskCall>, i: nat)
    requires Numbers(s) && i < |calls|
    ensures Numbered(s, calls, i)
  {
    if !IssuesAt(s, calls, i) {
      NumberedOnly(s, calls, i);
      var j := TagHasCall(s, calls, i, calls[i].value);
    }
  }

  /** With the token strategy the tokens shown are exactly those of the numbers issued. */
  lemma TokensShown(s: Strategy, calls: seq<MaskCall>, c: Category, m: nat)
    requires Numbers(s) && NamedCategories(calls) && CategoryName(c)
    ensures Token(c, m) in MaskAll(s, calls, |calls|).outs <==> 1 <= m <= Issued(MaskAll(s, calls, |calls|).doc, c)
  {
    var outs := MaskAll(s, calls, |calls|).outs;
    OutputCount(s, calls, |calls|);
    if Token(c, m) in outs {
      var i :| 0 <= i < |outs| && outs[i] == Token(c, m);
      AllNumbered(s, calls, i);
      TokenInRange(s, calls, c, m, i);
    }
    IssuedNumbers(s, calls, c, m);
  }

  // ---------------------------------------------------------------- any strategy

  /** Once a value has a non-empty mask, it keeps it for the rest of the session. */
  lemma {:induction false} MemoStays(s: Strategy, calls: seq<MaskCall>, m: nat, n: nat, v: Text)
    requires m <= n <= |calls|
    requires v in MaskAll(s, calls, m).doc.memo && MaskAll(s, calls, m).doc.memo[v] != []
    ensures v in MaskAll(s, calls, n).doc.memo
    ensures MaskAll(s, calls, n).doc.memo[v] == MaskAll(s, calls, m).doc.memo[v]
    decreases n
  {
    if m < n {
      MemoStays(s, calls, m, n - 1, v);
    }
  }

  lemma MaskRecorded(s: Strategy, d: Doc, v: Text, c: Category)
    requires KeepsNonEmpty(s) && v != []
    ensures Masked(s, d, v, c).1 != []
    ensures v in Masked(s, d, v, c).0.memo && Masked(s, d, v, c).0.memo[v] == Masked(s, d, v, c).1
  {
    if s.shape(v, c) == None {
      assert |Token(c, Issued(d, c) + 1)| > 0;
    }
  }

  /** Whatever the strategy, equal values get equal masks within one document. */
  lemma EqualValuesEqualMasks(s: Strategy, calls: seq<MaskCall>, i: nat, j: nat)
    requires KeepsNonEmpty(s) && i < j < |calls|
    requires calls[i].value == calls[j].value != []
    ensures |MaskAll(s, calls, |calls|).outs| == |calls|
    ensures MaskAll(s, calls, |calls|).outs[i] == MaskAll(s, calls, |calls|).outs[j]
  {
    var v := calls[i].value;
    OutputStays(s, calls, i, |calls|);
    OutputStays(s, calls, j, |calls|);
    OutputCount(s, calls, i);
    OutputCount(s, calls, j);
    MaskRecorded(s, MaskAll(s, calls, i).doc, v, calls[i].category);
    MemoStays(s, calls, i + 1, j, v);
    assert MaskAll(s, calls, i + 1).outs[i] == MaskAll(s, calls, j).doc.memo[v];
    assert MaskAll(s, calls, j + 1).outs[j] == MaskAll(s, calls, j).doc.memo[v];
  }
}
