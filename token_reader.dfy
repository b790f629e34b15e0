/** The `DataReader` of the two facility programs: a `StreamTokenizer` over the data file,
    each `next()` advancing one token and returning the tokenizer's last numeric value cast
    to `int`. The tokenizer keeps that value when the token is a word or the end of the
    input, so reading never fails: past the end it repeats the last number. */
module TokenReader {
  import opened JavaInt
  import opened SeqMath

  /** A token as the tokenizer classifies it (its character-level scanning is left out). */
  datatype Token = Number(value: real) | Word(text: string)

  /** The tokenizer's `nval` after `k` calls of `nextToken`: 0 at first, then the value of
      the last number token among the first `k`. */
  function Nval(tokens: seq<Token>, k: nat): real
  {
    if k == 0 then 0.0
    else if k - 1 < |tokens| && tokens[k - 1].Number? then tokens[k - 1].value
    else Nval(tokens, k - 1)
  }

  /** What call number `k` (from 0) of `next()` returns. */
  function Read(tokens: seq<Token>, k: nat): (r: int)
    ensures IsInt32(r)
  {
    DoubleToInt(Nval(tokens, k + 1))
  }

  /** What `n` calls of `next()` return after `start` earlier ones. */
  function ReadsFrom(tokens: seq<Token>, start: nat, n: nat): (r: seq<int>)
    ensures |r| == n
  {
    if n == 0 then [] else ReadsFrom(tokens, start, n - 1) + [Read(tokens, start + n - 1)]
  }

  class DataReader {
    const tokens: seq<Token>
    var calls: nat
    var nval: real

    predicate Valid()
      reads this
    {
      nval == Nval(tokens, calls)
    }

    constructor(tokens: seq<Token>)
      ensures this.tokens == tokens && calls == 0 && Valid()
    {
      this.tokens := tokens;
      calls := 0;
      nval := 0.0;
    }

    /** `next()`: `st.nextToken()`, then `(int) st.nval`. */
    method Next() returns (v: int)
      requires Valid()
      modifies this
      ensures Valid() && calls == old(calls) + 1
      ensures v == Read(tokens, old(calls))
    {
      if calls < |tokens| && tokens[calls].Number? {
        nval := tokens[calls].value;
      }
      calls := calls + 1;
      v := DoubleToInt(nval);
    }
  }

  /** A loop `for (j = 0; j < a.length; j++) a[j] = data.next();`. */
  method ReadInto(data: DataReader, a: array<int>)
    requires data.Valid()
    modifies data, a
    ensures data.Valid() && data.calls == old(data.calls) + a.Length
    ensures a[..] == ReadsFrom(data.tokens, old(data.calls), a.Length)
  {
    ghost var start := data.calls;
    for j := 0 to a.Length
      invariant data.Valid() && data.calls == start + j
      invariant a[..j] == ReadsFrom(data.tokens, start, j)
    {
      a[j] := data.Next();
      assert a[..j + 1] == a[..j] + [a[j]];
    }
    assert a[..a.Length] == a[..];
  }

  /** A number token `x` within the `int` range is read back as `x`. */
  lemma ReadNumber(tokens: seq<Token>, k: nat, x: int)
    requires k < |tokens| && tokens[k] == Number(x as real) && IsInt32(x)
    ensures Read(tokens, k) == x
  {
    var r := Read(tokens, k);
    assert Nval(tokens, k + 1) == x as real;
    assert IntMin as real <= x as real <= IntMax as real;
    if x >= 0 {
      assert r as real <= x as real < (r + 1) as real;
    } else {
      assert (r - 1) as real < x as real <= r as real;
    }
  }

  /** A word token leaves the previous value in place. */
  lemma ReadWord(tokens: seq<Token>, k: nat)
    requires k < |tokens| && tokens[k].Word?
    ensures Read(tokens, k) == if k == 0 then 0 else Read(tokens, k - 1)
  {
    assert Nval(tokens, k + 1) == Nval(tokens, k);
    if k == 0 {
      assert DoubleToInt(0.0) == 0;
    }
  }

  /** Past the end of the input, every call returns what the last call before the end did. */
  lemma {:induction false} ReadPastEnd(tokens: seq<Token>, k: nat)
    requires k >= |tokens|
    ensures Read(tokens, k) == if |tokens| == 0 then 0 else Read(tokens, |tokens| - 1)
  {
    if k > |tokens| {
      ReadPastEnd(tokens, k - 1);
    } else if |tokens| == 0 {
      assert Nval(tokens, 0) == 0.0;
    }
  }

  /** The number tokens of a sequence of integers. */
  function Numbers(xs: seq<int>): (r: seq<Token>)
    ensures |r| == |xs|
  {
    if |xs| == 0 then [] else Numbers(xs[..|xs| - 1]) + [Number(xs[|xs| - 1] as real)]
  }

  /** Every value fits in an `int`. */
  predicate AllInt32(xs: seq<int>)
  {
    forall k :: 0 <= k < |xs| ==> IsInt32(xs[k])
  }

  /** The number tokens of `xs`, wherever they sit in the input, are read back as `xs`. */
  lemma {:induction false} ReadsAt(pre: seq<Token>, xs: seq<int>, post: seq<Token>)
    requires AllInt32(xs)
    ensures ReadsFrom(pre + Numbers(xs) + post, |pre|, |xs|) == xs
    decreases |xs|
  {
    if |xs| > 0 {
      var init, last := xs[..|xs| - 1], xs[|xs| - 1];
      var t := pre + Numbers(xs) + post;
      assert t == pre + Numbers(init) + ([Number(last as real)] + post);
      ReadsAt(pre, init, [Number(last as real)] + post);
      assert t[|pre| + |xs| - 1] == Number(last as real);
      ReadNumber(t, |pre| + |xs| - 1, last);
      assert xs == init + [last];
    }
  }

  /** Regrouping a concatenation of token sequences. */
  lemma AppendAssoc(a: seq<Token>, b: seq<Token>, c: seq<Token>)
    ensures (a + b) + c == a + (b + c)
  {
  }

  /** `ReadsAt` for an input `t` that is known to be laid out as `pre`, `xs`, `post`. */
  lemma ReadsWithin(t: seq<Token>, pre: seq<Token>, xs: seq<int>, post: seq<Token>, start: nat, n: nat)
    requires AllInt32(xs) && t == pre + Numbers(xs) + post && start == |pre| && n == |xs|
    ensures ReadsFrom(t, start, n) == xs
  {
    ReadsAt(pre, xs, post);
  }

  /** `rows` rows of `width` reads each, starting after `start` reads. */
  function Rows(tokens: seq<Token>, start: nat, rows: nat, width: nat): (r: seq<seq<int>>)
    ensures |r| == rows && forall p :: 0 <= p < rows ==> |r[p]| == width
  {
    if rows == 0 then []
    else Rows(tokens, start, rows - 1, width) + [ReadsFrom(tokens, start + (rows - 1) * width, width)]
  }

  /** Nested reading loops: `rows` fresh rows of `width` values each. */
  method ReadRows(data: DataReader, rows: nat, width: nat) returns (cost: seq<seq<int>>)
    requires data.Valid()
    modifies data
    ensures data.Valid() && data.calls == old(data.calls) + rows * width
    ensures cost == Rows(data.tokens, old(data.calls), rows, width)
  {
    ghost var start := data.calls;
    cost := [];
    for i := 0 to rows
      invariant data.Valid() && data.calls == start + i * width
      invariant cost == Rows(data.tokens, start, i, width)
    {
      var row := new int[width];
      ReadInto(data, row);
      cost := cost + [row[..]];
      assert (i + 1) * width == i * width + width;
    }
  }

  /** The number tokens of a table, row after row. */
  function EncodeRows(table: seq<seq<int>>): seq<Token>
  {
    if |table| == 0 then [] else EncodeRows(table[..|table| - 1]) + Numbers(table[|table| - 1])
  }

  lemma {:induction false} EncodeRowsLength(table: seq<seq<int>>, width: nat)
    requires forall r :: 0 <= r < |table| ==> |table[r]| == width
    ensures |EncodeRows(table)| == |table| * width
  {
    if |table| > 0 {
      EncodeRowsLength(table[..|table| - 1], width);
    }
  }

  /** Every row of a table fits in `int`s. */
  predicate AllRowsInt32(table: seq<seq<int>>)
  {
    forall r :: 0 <= r < |table| ==> AllInt32(table[r])
  }

  /** The tokens of a table, wherever they sit in the input, are read back as the table. */
  lemma {:induction false} RowsAt(pre: seq<Token>, table: seq<seq<int>>, width: nat, post: seq<Token>)
    requires forall r :: 0 <= r < |table| ==> |table[r]| == width
    requires AllRowsInt32(table)
    ensures Rows(pre + EncodeRows(table) + post, |pre|, |table|, width) == table
    decreases |table|
  {
    if |table| > 0 {
      var init, last := table[..|table| - 1], table[|table| - 1];
      var t := pre + EncodeRows(table) + post;
      assert Rows(t, |pre|, |init|, width) == init by {
        assert t == pre + EncodeRows(init) + (Numbers(last) + post);
        RowsAt(pre, init, width, Numbers(last) + post);
      }
      LastRowAt(pre, init, last, width, post);
      assert table == init + [last];
    }
  }

  /** The row written after `init` is read back after `init`'s reads. */
  lemma LastRowAt(pre: seq<Token>, init: seq<seq<int>>, last: seq<int>, width: nat, post: seq<Token>)
    requires forall r :: 0 <= r < |init| ==> |init[r]| == width
    requires |last| == width && AllInt32(last)
    ensures ReadsFrom(pre + EncodeRows(init + [last]) + post, |pre| + |init| * width, width) == last
  {
    var table := init + [last];
    assert table[..|table| - 1] == init;
    assert pre + EncodeRows(table) + post == (pre + EncodeRows(init)) + Numbers(last) + post;
    ReadsAt(pre + EncodeRows(init), last, post);
    EncodeRowsLength(init, width);
  }
}
