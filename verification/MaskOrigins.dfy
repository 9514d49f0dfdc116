/** Where the masks of a session come from: each was made by the strategy, at the first call that
    gave its value one. */
module MaskOrigins {
  import opened Bytes
  import opened Strategies
  import opened TokenNumbering

  /** The mask is what the strategy makes of the call's value: its shape if there is one, else a
      token of the category. */
  ghost predicate Makes(s: Strategy, call: MaskCall, m: Text) {
    match s.shape(call.value, call.category)
    case Some(shape) => m == shape
    case None => exists n: nat :: n >= 1 && m == Token(call.category, n)
  }

  predicate Remembered(d: Doc, v: Text) {
    v in d.memo && d.memo[v] != []
  }

  /** All masks of the value before call `n` are empty. */
  ghost predicate EmptyBefore(s: Strategy, calls: seq<MaskCall>, v: Text, n: nat)
    requires n <= |calls|
  {
    forall l: nat :: l < n && calls[l].value == v ==> OutputAt(s, calls, l) == []
  }

  /** Call `j` is the first to give the value a mask, and made this one. */
  ghost predicate MadeAt(s: Strategy, calls: seq<MaskCall>, v: Text, m: Text, j: nat)
    requires j < |calls|
  {
    calls[j].value == v && OutputAt(s, calls, j) == m && Makes(s, calls[j], m) && EmptyBefore(s, calls, v, j)
  }

  lemma MaskedMakes(s: Strategy, d: Doc, call: MaskCall)
    ensures var r := Masked(s, d, call.value, call.category);
            if Remembered(d, call.value) then r == (d, d.memo[call.value])
            else Makes(s, call, r.1) && r.0.memo == d.memo[call.value := r.1]
  {
    if !Remembered(d, call.value) && s.shape(call.value, call.category) == None {
      var n := Issued(d, call.category) + 1;
      assert n >= 1 && Masked(s, d, call.value, call.category).1 == Token(call.category, n);
    }
  }

  lemma {:induction false} MemoIsMade(s: Strategy, calls: seq<MaskCall>, v: Text, n: nat)
    requires n <= |calls|
    ensures Remembered(MaskAll(s, calls, n).doc, v) ==>
              exists j: nat :: j < n && MadeAt(s, calls, v, MaskAll(s, calls, n).doc.memo[v], j)
    ensures !Remembered(MaskAll(s, calls, n).doc, v) ==> EmptyBefore(s, calls, v, n)
  {
    if n > 0 {
      var d := MaskAll(s, calls, n - 1).doc;
      MemoIsMade(s, calls, v, n - 1);
      MaskedMakes(s, d, calls[n - 1]);
      if Remembered(d, v) {
        var j: nat :| j < n - 1 && MadeAt(s, calls, v, d.memo[v], j);
        assert MaskAll(s, calls, n).doc.memo[v] == d.memo[v];
      } else if calls[n - 1].value == v {
        assert OutputAt(s, calls, n - 1) == MaskAll(s, calls, n).doc.memo[v];
        assert MadeAt(s, calls, v, MaskAll(s, calls, n).doc.memo[v], n - 1);
      }
    }
  }

  /** Whatever the strategy: each mask is what the strategy made of the value at the first call
      that gave it one. */
  lemma MasksAreMade(s: Strategy, calls: seq<MaskCall>, i: nat) returns (j: nat)
    requires i < |calls|
    ensures |MaskAll(s, calls, |calls|).outs| == |calls|
    ensures j <= i && MadeAt(s, calls, calls[i].value, MaskAll(s, calls, |calls|).outs[i], j)
  {
    var d, v := MaskAll(s, calls, i).doc, calls[i].value;
    OutputIs(s, calls, i, |calls|);
    MemoIsMade(s, calls, v, i);
    MaskedMakes(s, d, calls[i]);
    j := i;
    if Remembered(d, v) {
      j :| j < i && MadeAt(s, calls, v, d.memo[v], j);
    }
  }
}
