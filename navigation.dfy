/** Cursor movement over the filtered view: `keyup`, `keydown` (and its
    alias `keytab`) and `keynum`, as functions of the active index, the size
    of the view and the configuration. */
module Navigation {
  import opened Common
  import opened Text

  /** `keyup`: at the first choice it wraps to the last when cycling and
      stays put otherwise; elsewhere it moves up one. */
  function StepUp(active: int, count: nat, cycle: bool): (r: int)
    ensures 1 <= active <= count ==> 1 <= r <= count
  {
    if active == 1 then (if cycle then count else active) else active - 1
  }

  /** `keydown`: at the last choice it wraps to the first when cycling and
      stays put otherwise; elsewhere it moves down one. */
  function StepDown(active: int, count: nat, cycle: bool): (r: int)
    ensures 1 <= active <= count ==> 1 <= r <= count
  {
    if active == count then (if cycle then 1 else active) else active + 1
  }

  /** Up and down undo each other, everywhere when cycling and away from the
      boundary they would clamp at otherwise. */
  lemma UpDownInverse(active: int, count: nat, cycle: bool)
    requires 1 <= active <= count
    ensures cycle || active > 1 ==> StepDown(StepUp(active, count, cycle), count, cycle) == active
    ensures cycle || active < count ==> StepUp(StepDown(active, count, cycle), count, cycle) == active
  {
  }

  datatype Move = Up | Down

  function Step(active: int, count: nat, cycle: bool, m: Move): int {
    match m
    case Up => StepUp(active, count, cycle)
    case Down => StepDown(active, count, cycle)
  }

  /** The active index after a sequence of arrow keys. */
  function ApplyMoves(active: int, count: nat, cycle: bool, moves: seq<Move>): (r: int)
    ensures 1 <= active <= count ==> 1 <= r <= count
    decreases |moves|
  {
    if moves == [] then active
    else ApplyMoves(Step(active, count, cycle, moves[0]), count, cycle, moves[1..])
  }

  function DownSteps(active: int, count: nat, cycle: bool, k: nat): int {
    if k == 0 then active else StepDown(DownSteps(active, count, cycle, k - 1), count, cycle)
  }

  function UpSteps(active: int, count: nat, cycle: bool, k: nat): int {
    if k == 0 then active else StepUp(UpSteps(active, count, cycle, k - 1), count, cycle)
  }

  /** Euclidean division has one quotient and one remainder. */
  lemma ModUnique(x: int, n: int, q: int, r: int)
    requires n > 0 && 0 <= r < n && x == q * n + r
    ensures x % n == r
  {
    var q', r' := x / n, x % n;
    assert x == q' * n + r';
    var d := q - q';
    assert d * n == r' - r;
    if d >= 1 {
      MulMonotone(n, 1, d);
    } else if d <= -1 {
      MulMonotone(n, 1, -d);
    }
  }

  lemma ModSucc(j: int, n: int)
    requires n > 0
    ensures (j + 1) % n == if j % n == n - 1 then 0 else j % n + 1
  {
    var q, r := j / n, j % n;
    assert j == q * n + r;
    if r == n - 1 {
      ModUnique(j + 1, n, q + 1, 0);
    } else {
      ModUnique(j + 1, n, q, r + 1);
    }
  }

  lemma ModPred(j: int, n: int)
    requires n > 0
    ensures (j - 1) % n == if j % n == 0 then n - 1 else j % n - 1
  {
    var q, r := j / n, j % n;
    assert j == q * n + r;
    if r == 0 {
      ModUnique(j - 1, n, q - 1, n - 1);
    } else {
      ModUnique(j - 1, n, q, r - 1);
    }
  }

  /** k presses of down from `active`: with cycling the index runs round the
      view modulo its size; without, it stops at the last choice. */
  lemma {:induction false} DownStepsClosedForm(active: int, count: nat, cycle: bool, k: nat)
    requires 1 <= active <= count
    ensures DownSteps(active, count, cycle, k)
            == if cycle then (active - 1 + k) % count + 1
               else if active + k <= count then active + k else count
  {
    if k > 0 {
      DownStepsClosedForm(active, count, cycle, k - 1);
      if cycle {
        ModSucc(active - 1 + k - 1, count);
      }
    } else if cycle {
      assert (active - 1) % count == active - 1;
    }
  }

  /** k presses of up from `active`: with cycling the index runs round the
      view backwards modulo its size; without, it stops at the first choice. */
  lemma {:induction false} UpStepsClosedForm(active: int, count: nat, cycle: bool, k: nat)
    requires 1 <= active <= count
    ensures UpSteps(active, count, cycle, k)
            == if cycle then (active - 1 - k) % count + 1
               else if active - k >= 1 then active - k else 1
  {
    if k > 0 {
      UpStepsClosedForm(active, count, cycle, k - 1);
      if cycle {
        ModPred(active - 1 - (k - 1), count);
      }
    } else if cycle {
      assert (active - 1) % count == active - 1;
    }
  }

  /** `keynum`: with enumeration on, a key whose `to_i` value is a valid
      1-based index selects that index; every other key changes nothing. */
  function NumberKey(active: int, value: string, count: nat, enumerate: bool): (r: int)
    ensures enumerate && 1 <= ToI(value) <= count ==> r == ToI(value)
    ensures !(enumerate && 1 <= ToI(value) <= count) ==> r == active
    ensures 1 <= active <= count ==> 1 <= r <= count
  {
    if !enumerate then active
    else
      var v := ToI(value);
      if 1 <= v <= count then v else active
  }

  /** Typing the numeral of any index from 1 to the view size selects it. */
  lemma NumberKeySelects(active: int, v: nat, count: nat)
    requires 1 <= v <= count
    ensures NumberKey(active, ToDecimal(v), count, true) == v
  {
    DecimalRoundTrip(v);
  }
}
