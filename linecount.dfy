/** How many terminal rows a rendered frame occupies once long lines wrap:
    `List#terminal_linecount`. The count is what the prompt erases before it
    draws the next frame. */
module LineCount {
  import opened Common

  /** Rows taken by one line of `len` visible characters on a terminal
      `width` columns wide: `1 + [len - 1, 0].max / width`. */
  function Rows(len: nat, width: nat): (r: nat)
    requires width > 0
    ensures r >= 1
  {
    1 + (if len >= 1 then len - 1 else 0) / width
  }

  /** The row count is the ceiling of `len / width`, and one row for an empty line. */
  lemma RowsIsCeiling(len: nat, width: nat)
    requires width > 0
    ensures len == 0 ==> Rows(len, width) == 1
    ensures len >= 1 ==> (Rows(len, width) - 1) * width < len <= Rows(len, width) * width
  {
    if len >= 1 {
      var q, m := (len - 1) / width, (len - 1) % width;
      assert len - 1 == q * width + m;
      assert Rows(len, width) == q + 1;
      assert (q + 1) * width == q * width + width;
    }
  }

  /** `lines.inject(0) { |sum, line| sum + rows(line) }`, summed left to right. */
  function TerminalLinecount(lines: seq<string>, width: nat): (r: nat)
    requires width > 0
    ensures r >= |lines|
  {
    if lines == [] then 0
    else TerminalLinecount(lines[..|lines| - 1], width) + Rows(|lines[|lines| - 1]|, width)
  }

  /** The count of two blocks of lines is the sum of their counts. */
  lemma {:induction false} LinecountAppend(a: seq<string>, b: seq<string>, width: nat)
    requires width > 0
    ensures TerminalLinecount(a + b, width) == TerminalLinecount(a, width) + TerminalLinecount(b, width)
    decreases |b|
  {
    if b == [] {
      assert a + b == a;
    } else {
      var b' := b[..|b| - 1];
      assert (a + b)[..|a + b| - 1] == a + b';
      LinecountAppend(a, b', width);
    }
  }

  /** When no line is wider than the terminal, each takes exactly one row. */
  lemma {:induction false} LinecountNoWrap(lines: seq<string>, width: nat)
    requires width > 0
    requires forall i :: 0 <= i < |lines| ==> |lines[i]| <= width
    ensures TerminalLinecount(lines, width) == |lines|
  {
    if lines != [] {
      LinecountNoWrap(lines[..|lines| - 1], width);
      RowsIsCeiling(|lines[|lines| - 1]|, width);
    }
  }

  /** A quotient by a wider divisor is never larger. */
  lemma DivWider(x: nat, narrow: nat, wide: nat)
    requires 0 < narrow <= wide
    ensures x / wide <= x / narrow
  {
    var q := x / wide;
    var p, m := x / narrow, x % narrow;
    assert x == q * wide + x % wide;
    MulMonotone(q, narrow, wide);
    assert x == p * narrow + m;
    if q > p {
      MulMonotone(narrow, p + 1, q);
    }
  }

  lemma RowsWider(len: nat, narrow: nat, wide: nat)
    requires 0 < narrow <= wide
    ensures Rows(len, wide) <= Rows(len, narrow)
  {
    DivWider(if len >= 1 then len - 1 else 0, narrow, wide);
  }

  /** A wider terminal never needs more rows for the same frame. */
  lemma {:induction false} LinecountWider(lines: seq<string>, narrow: nat, wide: nat)
    requires 0 < narrow <= wide
    ensures TerminalLinecount(lines, wide) <= TerminalLinecount(lines, narrow)
  {
    if lines != [] {
      LinecountWider(lines[..|lines| - 1], narrow, wide);
      RowsWider(|lines[|lines| - 1]|, narrow, wide);
    }
  }
}
