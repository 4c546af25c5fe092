/** The single-select List prompt: one object per interaction whose key
    handlers move the active index, edit the filter and confirm, and whose
    render loop draws a frame, reads one key, erases the frame and repeats
    until a choice is confirmed. */
module ListPrompt {
  import opened Common
  import opened Text
  import opened Choices
  import opened Navigation
  import opened LineCount
  import opened Config
  import opened Frames

  /** The key events the reader publishes to the list, named after the
      handler that receives them. */
  datatype KeyEvent =
    | KeyUp
    | KeyDown
    | KeyTab
    | KeyNum(value: string)
    | KeyEnter
    | KeyReturn
    | KeySpace
    | KeyPress(value: string)
    | KeyDelete
    | KeyBackspace
    | KeyOther(name: string)

  /** What the prompt writes to the terminal, in order. */
  datatype Output = HideCursor | ShowCursor | Print(text: string) | ClearLines(rows: nat)

  /** `FILTER_KEYS_MATCHER = /\A\w\Z/`: one word character, which `\Z` also
      lets through when a single trailing newline follows it. */
  predicate IsFilterKey(value: string)
    ensures IsFilterKey(value) <==> (|value| == 1 && IsWordChar(value[0]))
                                    || (|value| == 2 && IsWordChar(value[0]) && value[1] == '\n')
  {
    |value| >= 1 && IsWordChar(value[0]) && (|value| == 1 || value[1..] == "\n")
  }

  /** The filter after `keypress`: with filtering on, a filter key is appended. */
  function AfterPress(filter: Option<string>, value: string): Option<string> {
    if filter.Some? && IsFilterKey(value) then Some(filter.value + value) else filter
  }

  /** The filter after `keybackspace`: its last character is dropped, if any. */
  function AfterBackspace(filter: Option<string>): Option<string> {
    match filter
    case None => None
    case Some(f) => Some(if f == "" then f else f[..|f| - 1])
  }

  /** The filter after `keydelete`: emptied, when filtering is on. */
  function AfterDelete(filter: Option<string>): Option<string> {
    if filter.Some? then Some("") else None
  }

  /** Typing into the filter never adds a choice to the view. */
  lemma PressNarrowsView<V>(items: seq<Choice<V>>, filter: Option<string>, value: string)
    ensures IsSubsequence(Filtered(items, AfterPress(filter, value)), Filtered(items, filter))
    ensures |Filtered(items, AfterPress(filter, value))| <= |Filtered(items, filter)|
  {
    if filter.Some? && IsFilterKey(value) {
      FilteredNarrows(items, filter.value, value);
    } else {
      SubsequenceReflexive(Filtered(items, filter));
    }
  }

  /** Backspace never removes a choice from the view. */
  lemma BackspaceWidensView<V>(items: seq<Choice<V>>, filter: Option<string>)
    ensures IsSubsequence(Filtered(items, filter), Filtered(items, AfterBackspace(filter)))
    ensures |Filtered(items, filter)| <= |Filtered(items, AfterBackspace(filter))|
  {
    if filter.Some? && filter.value != "" {
      var f := filter.value;
      assert f == f[..|f| - 1] + [f[|f| - 1]];
      FilteredNarrows(items, f[..|f| - 1], [f[|f| - 1]]);
    } else {
      SubsequenceReflexive(Filtered(items, filter));
    }
  }

  /** Delete brings back the whole collection when filtering is on. */
  lemma DeleteShowsAll<V>(items: seq<Choice<V>>, filter: Option<string>)
    ensures filter.Some? ==> Filtered(items, AfterDelete(filter)) == items
    ensures filter.None? ==> AfterDelete(filter) == filter
  {
  }

  /** The part of the list's state the key handlers change. */
  datatype Snapshot = Snapshot(active: int, filter: Option<string>, done: bool)

  /** The active index points into the view whenever the view is non-empty. */
  predicate ReadyFor<V>(items: seq<Choice<V>>, st: Snapshot) {
    |Filtered(items, st.filter)| >= 1 ==> 1 <= st.active <= |Filtered(items, st.filter)|
  }

  /** The state after the handler named by `ev` runs; events with no handler
      change nothing. */
  function Handle<V>(s: Settings, items: seq<Choice<V>>, st: Snapshot, ev: KeyEvent): Snapshot {
    var count := |Filtered(items, st.filter)|;
    match ev
    case KeyUp => st.(active := StepUp(st.active, count, s.cycle))
    case KeyDown => st.(active := StepDown(st.active, count, s.cycle))
    case KeyTab => st.(active := StepDown(st.active, count, s.cycle))
    case KeyNum(v) => st.(active := NumberKey(st.active, v, count, s.enum.Some?))
    case KeyEnter => st.(done := st.done || count > 0)
    case KeyReturn => st.(done := st.done || count > 0)
    case KeySpace => st.(done := st.done || count > 0)
    case KeyPress(v) =>
      if st.filter.Some? && IsFilterKey(v) then st.(filter := AfterPress(st.filter, v), active := 1) else st
    case KeyDelete => if st.filter.Some? then st.(filter := AfterDelete(st.filter), active := 1) else st
    case KeyBackspace => if st.filter.Some? then st.(filter := AfterBackspace(st.filter), active := 1) else st
    case KeyOther(_) => st
  }

  /** Only enter, return and space confirm, and only over a non-empty view;
      only press, delete and backspace touch the filter, and only while
      filtering is on. */
  lemma HandleConfirmsAndFilters<V>(s: Settings, items: seq<Choice<V>>, st: Snapshot, ev: KeyEvent)
    ensures Handle(s, items, st, ev).done
            <==> st.done || ((ev.KeyEnter? || ev.KeyReturn? || ev.KeySpace?) && |Filtered(items, st.filter)| > 0)
    ensures Handle(s, items, st, ev).filter != st.filter
            ==> st.filter.Some? && (ev.KeyPress? || ev.KeyDelete? || ev.KeyBackspace?)
  {
  }

  /** Every handler keeps the active index inside a non-empty view. */
  lemma HandleKeepsReady<V>(s: Settings, items: seq<Choice<V>>, st: Snapshot, ev: KeyEvent)
    requires ReadyFor(items, st)
    ensures ReadyFor(items, Handle(s, items, st, ev))
  {
  }

  /** The keys `render` reads: it delivers them one by one until a choice is
      confirmed, and returns the state reached with how many keys it read. */
  function Replay<V>(s: Settings, items: seq<Choice<V>>, st: Snapshot, keys: seq<KeyEvent>): (r: (Snapshot, nat))
    ensures r.1 <= |keys|
    ensures r.0.done || r.1 == |keys|
    ensures st.done ==> r == (st, 0)
    decreases |keys|
  {
    if st.done || keys == [] then (st, 0)
    else
      var r := Replay(s, items, Handle(s, items, st, keys[0]), keys[1..]);
      (r.0, r.1 + 1)
  }

  /** Reading one more key: the replay from key `i` on is that key's
      handler followed by the replay from key `i + 1` on. */
  lemma ReplayStep<V>(s: Settings, items: seq<Choice<V>>, st: Snapshot, keys: seq<KeyEvent>, i: nat)
    requires i < |keys| && !st.done
    ensures Replay(s, items, st, keys[i..])
            == (Replay(s, items, Handle(s, items, st, keys[i]), keys[i + 1..]).0,
                Replay(s, items, Handle(s, items, st, keys[i]), keys[i + 1..]).1 + 1)
  {
    assert keys[i..][1..] == keys[i + 1..];
  }

  /** The replay of all `keys` from `start` is the replay, from state `st`,
      of the keys after the first `i`, with those `i` counted as read. */
  predicate ReplayResumes<V>(s: Settings, items: seq<Choice<V>>, start: Snapshot, keys: seq<KeyEvent>,
                             st: Snapshot, i: nat)
    requires i <= |keys|
  {
    Replay(s, items, start, keys) == (Replay(s, items, st, keys[i..]).0, Replay(s, items, st, keys[i..]).1 + i)
  }

  /** Reading key `i` keeps the replay resumable from the state it leads to. */
  lemma ReplayAdvance<V>(s: Settings, items: seq<Choice<V>>, start: Snapshot, keys: seq<KeyEvent>,
                         st: Snapshot, i: nat)
    requires i < |keys| && !st.done && ReplayResumes(s, items, start, keys, st, i)
    ensures ReplayResumes(s, items, start, keys, Handle(s, items, st, keys[i]), i + 1)
  {
    ReplayStep(s, items, st, keys, i);
  }

  /** Once a choice is confirmed or the keys run out, the replay is over. */
  lemma ReplayAtEnd<V>(s: Settings, items: seq<Choice<V>>, start: Snapshot, keys: seq<KeyEvent>,
                       st: Snapshot, i: nat)
    requires i <= |keys| && ReplayResumes(s, items, start, keys, st, i)
    requires st.done || i == |keys|
    ensures Replay(s, items, start, keys) == (st, i)
  {
  }

  /** A replay started with the active index inside the view ends with it
      there. */
  lemma {:induction false} ReplayKeepsReady<V>(s: Settings, items: seq<Choice<V>>, st: Snapshot, keys: seq<KeyEvent>)
    requires ReadyFor(items, st)
    ensures ReadyFor(items, Replay(s, items, st, keys).0)
    decreases |keys|
  {
    if !st.done && keys != [] {
      HandleKeepsReady(s, items, st, keys[0]);
      ReplayKeepsReady(s, items, Handle(s, items, st, keys[0]), keys[1..]);
    }
  }

  /** Keys after the confirming one are never read: replaying more keys
      after a prefix that confirms changes nothing. */
  lemma {:induction false} ReplayIgnoresRest<V>(s: Settings, items: seq<Choice<V>>, st: Snapshot,
                                                keys: seq<KeyEvent>, more: seq<KeyEvent>)
    requires Replay(s, items, st, keys).0.done
    ensures Replay(s, items, st, keys + more) == Replay(s, items, st, keys)
    decreases |keys|
  {
    if !st.done {
      assert keys != [];
      assert (keys + more)[0] == keys[0];
      assert (keys + more)[1..] == keys[1..] + more;
      ReplayIgnoresRest(s, items, Handle(s, items, st, keys[0]), keys[1..], more);
    }
  }

  /** Replaying in two parts: the second part starts from the state the
      first one reached, unless the first one already confirmed. */
  lemma {:induction false} ReplayAppend<V>(s: Settings, items: seq<Choice<V>>, st: Snapshot,
                                           keys: seq<KeyEvent>, more: seq<KeyEvent>)
    requires !Replay(s, items, st, keys).0.done
    ensures Replay(s, items, st, keys + more)
            == (Replay(s, items, Replay(s, items, st, keys).0, more).0,
                Replay(s, items, st, keys).1 + Replay(s, items, Replay(s, items, st, keys).0, more).1)
    decreases |keys|
  {
    if keys == [] {
      assert keys + more == more;
    } else {
      var next := Handle(s, items, st, keys[0]);
      assert (keys + more)[0] == keys[0];
      assert (keys + more)[1..] == keys[1..] + more;
      ReplayAppend(s, items, next, keys[1..], more);
    }
  }


  /** Entry `k` of a transcript: frames at odd positions, and at even ones
      the erasure of exactly the rows the frame just before it occupies. */
  ghost predicate DrawnAt(out: seq<Output>, k: nat, width: nat)
    requires width > 0 && 0 < k < |out|
  {
    if k % 2 == 1 then out[k].Print?
    else out[k - 1].Print? && out[k] == ClearLines(TerminalLinecount(SplitLines(out[k - 1].text), width))
  }

  /** A transcript after the cursor is hidden: frames and erasures
      alternating, each erasure of exactly the rows the frame before it
      occupies. */
  ghost predicate EraseMatchesFrames(out: seq<Output>, width: nat)
    requires width > 0
  {
    |out| >= 1 && forall k :: 0 < k < |out| ==> DrawnAt(out, k, width)
  }

  lemma AppendTurn(out: seq<Output>, q: string, width: nat, turns: nat)
    requires width > 0 && EraseMatchesFrames(out, width)
    requires |out| == 2 * turns + 1
    ensures EraseMatchesFrames(out + [Print(q), ClearLines(TerminalLinecount(SplitLines(q), width))], width)
  {
    var out' := out + [Print(q), ClearLines(TerminalLinecount(SplitLines(q), width))];
    forall k | 0 < k < |out'|
      ensures DrawnAt(out', k, width)
    {
      if k < |out| {
        assert DrawnAt(out, k, width);
      }
    }
  }

  lemma AppendFrame(out: seq<Output>, q: string, width: nat, turns: nat)
    requires width > 0 && EraseMatchesFrames(out, width)
    requires |out| == 2 * turns + 1
    ensures EraseMatchesFrames(out + [Print(q)], width)
  {
    var out' := out + [Print(q)];
    forall k | 0 < k < |out'|
      ensures DrawnAt(out', k, width)
    {
      if k < |out| {
        assert DrawnAt(out, k, width);
      }
    }
  }

  /** The frame `render` draws for a state that has not confirmed yet: the
      whole filtered view as one page. */
  function ShownFrame<V>(s: Settings, items: seq<Choice<V>>, st: Snapshot, first: bool): string
  {
    var view := Filtered(items, st.filter);
    Frame(s, view, st.active, false, first, st.filter, 0, |view|, |view| - 1)
  }

  /** What the `until @done` loop of `render` prints for `keys`: a turn for
      every key it reads, until a choice is confirmed or the keys run out. */
  function Session<V>(s: Settings, items: seq<Choice<V>>, st: Snapshot, first: bool,
                      keys: seq<KeyEvent>, width: nat): seq<Output>
    requires width > 0
    decreases |keys|, 1
  {
    if st.done || keys == [] then [] else SessionTurn(s, items, st, first, keys, width)
  }

  /** A turn of the session and the rest of it: the frame for the state
      before the key, the erasure of the rows that frame occupies, then the
      session from the state the key leads to. Only the first frame of a
      session is a first render. */
  function SessionTurn<V>(s: Settings, items: seq<Choice<V>>, st: Snapshot, first: bool,
                          keys: seq<KeyEvent>, width: nat): seq<Output>
    requires width > 0 && keys != []
    decreases |keys|, 0
  {
    var q := ShownFrame(s, items, st, first);
    [Print(q), ClearLines(TerminalLinecount(SplitLines(q), width))]
    + Session(s, items, Handle(s, items, st, keys[0]), false, keys[1..], width)
  }

  /** A session prints two entries for every key it reads. */
  lemma {:induction false} SessionLength<V>(s: Settings, items: seq<Choice<V>>, st: Snapshot, first: bool,
                                            keys: seq<KeyEvent>, width: nat)
    requires width > 0
    ensures |Session(s, items, st, first, keys, width)| == 2 * Replay(s, items, st, keys).1
    decreases |keys|
  {
    if !st.done && keys != [] {
      SessionLength(s, items, Handle(s, items, st, keys[0]), false, keys[1..], width);
    }
  }

  /** Reading one more key adds that state's frame and its erasure. */
  lemma SessionStep<V>(s: Settings, items: seq<Choice<V>>, st: Snapshot, first: bool,
                       keys: seq<KeyEvent>, i: nat, width: nat)
    requires i < |keys| && !st.done && width > 0
    ensures Session(s, items, st, first, keys[i..], width)
            == [Print(ShownFrame(s, items, st, first)),
                ClearLines(TerminalLinecount(SplitLines(ShownFrame(s, items, st, first)), width))]
               + Session(s, items, Handle(s, items, st, keys[i]), false, keys[i + 1..], width)
  {
    assert keys[i..][1..] == keys[i + 1..];
  }

  /** Every session transcript alternates frames and erasures, each erasure
      clearing exactly the rows of the frame before it. */
  lemma {:induction false} SessionErasesFrames<V>(s: Settings, items: seq<Choice<V>>, st: Snapshot, first: bool,
                                                  keys: seq<KeyEvent>, width: nat, pre: seq<Output>, turns: nat)
    requires width > 0 && EraseMatchesFrames(pre, width) && |pre| == 2 * turns + 1
    ensures EraseMatchesFrames(pre + Session(s, items, st, first, keys, width), width)
    decreases |keys|
  {
    if st.done || keys == [] {
      assert pre + Session(s, items, st, first, keys, width) == pre;
    } else {
      SessionStep(s, items, st, first, keys, 0, width);
      var q := ShownFrame(s, items, st, first);
      var step := [Print(q), ClearLines(TerminalLinecount(SplitLines(q), width))];
      var rest := Session(s, items, Handle(s, items, st, keys[0]), false, keys[1..], width);
      AppendTurn(pre, q, width, turns);
      SessionErasesFrames(s, items, Handle(s, items, st, keys[0]), false, keys[1..], width, pre + step, turns + 1);
      AppendAssoc(pre, step, rest);
    }
  }

  /** `whole` is what has been `printed` so far followed by the session from
      state `st` on the keys still to come. */
  ghost predicate Resumes<V>(printed: seq<Output>, s: Settings, items: seq<Choice<V>>, st: Snapshot, first: bool,
                             keys: seq<KeyEvent>, width: nat, whole: seq<Output>)
    requires width > 0
  {
    printed + Session(s, items, st, first, keys, width) == whole
  }

  /** A turn of the loop: printing the frame for the state before key `i`
      and its erasure resumes the session from the state that key leads to. */
  lemma ResumeTurn<V>(printed: seq<Output>, s: Settings, items: seq<Choice<V>>, st: Snapshot, first: bool,
                      keys: seq<KeyEvent>, i: nat, width: nat, whole: seq<Output>, q: string)
    requires width > 0 && i < |keys| && !st.done && q == ShownFrame(s, items, st, first)
    requires Resumes(printed, s, items, st, first, keys[i..], width, whole)
    ensures Resumes(printed + [Print(q), ClearLines(TerminalLinecount(SplitLines(q), width))],
                    s, items, Handle(s, items, st, keys[i]), false, keys[i + 1..], width, whole)
  {
    SessionStep(s, items, st, first, keys, i, width);
    var step := [Print(q), ClearLines(TerminalLinecount(SplitLines(q), width))];
    var later := Session(s, items, Handle(s, items, st, keys[i]), false, keys[i + 1..], width);
    AppendAssoc(printed, step, later);
  }

  /** Once a choice is confirmed or the keys run out, nothing more is
      printed: what was printed is the whole. */
  lemma ResumesAtEnd<V>(printed: seq<Output>, s: Settings, items: seq<Choice<V>>, st: Snapshot, first: bool,
                        keys: seq<KeyEvent>, width: nat, whole: seq<Output>)
    requires width > 0 && Resumes(printed, s, items, st, first, keys, width, whole)
    requires st.done || keys == []
    ensures printed == whole
  {
    assert printed + [] == printed;
  }

  /** What `render` prints before its final frame: the cursor hidden, then
      the session for `keys` from `st`. */
  function LoopOutput<V>(s: Settings, items: seq<Choice<V>>, st: Snapshot, first: bool,
                         keys: seq<KeyEvent>, width: nat): seq<Output>
    requires width > 0
  {
    [HideCursor] + Session(s, items, st, first, keys, width)
  }

  /** The loop's output holds two entries per key read after the hidden
      cursor, frames alternating with the erasure of exactly their rows. */
  lemma LoopOutputShape<V>(s: Settings, items: seq<Choice<V>>, st: Snapshot, first: bool,
                           keys: seq<KeyEvent>, width: nat)
    requires width > 0
    ensures LoopOutput(s, items, st, first, keys, width)[0] == HideCursor
    ensures |LoopOutput(s, items, st, first, keys, width)| == 2 * Replay(s, items, st, keys).1 + 1
    ensures EraseMatchesFrames(LoopOutput(s, items, st, first, keys, width), width)
  {
    SessionLength(s, items, st, first, keys, width);
    SessionErasesFrames(s, items, st, first, keys, width, [HideCursor], 0);
  }

  /** The list prompt. The configuration instance variables (`@prefix`,
      `@question`, `@enum`, `@marker`, `@cycle`, `@help`, `@per_page`,
      `@page_help`) are kept together in `settings`; `items` is `@choices`. */
  class List<V> {
    var settings: Settings
    var defaults: seq<DefaultSpec>
    var items: seq<Choice<V>>
    var active: int
    var filter: Option<string>
    var done: bool
    var firstRender: bool

    /** `choices` without arguments: what every handler and renderer sees. */
    function View(): seq<Choice<V>>
      reads this
    {
      Filtered(items, filter)
    }

    /** The state the key handlers change. */
    function Snap(): Snapshot
      reads this
    {
      Snapshot(active, filter, done)
    }

    /** The object invariant once defaults are set up: whenever the view is
        non-empty the active index points into it. */
    predicate Ready()
      reads this
    {
      ReadyFor(items, Snap())
    }

    /** `initialize` for an options hash that passes the consistency check;
        `NewList` below raises for the others. Before `setup_defaults` a
        missing first default leaves `active` at 0 (`nil` in the source). */
    constructor (o: Options, promptPrefix: string, pointer: string)
      requires CheckOptionsConsistency(o).Pass?
      ensures settings == SettingsFrom(o, promptPrefix, pointer)
      ensures defaults == DefaultsFrom(o) && items == []
      ensures active == FirstDefault(defaults).GetOr(0)
      ensures filter == FilterFrom(o) && !done && firstRender
      ensures !(settings.enum.Some? && filter.Some?)
    {
      settings := SettingsFrom(o, promptPrefix, pointer);
      defaults := DefaultsFrom(o);
      active := FirstDefault(DefaultsFrom(o)).GetOr(0);
      items := [];
      filter := FilterFrom(o);
      firstRender := true;
      done := false;
    }

    /** `choices(values)`: appends to the collection. */
    method AddChoices(values: seq<Choice<V>>)
      modifies this`items
      ensures items == old(items) + values
    {
      items := items + values;
    }

    /** `default(*values)`: replaces the requested defaults; called with no
        arguments it leaves none. */
    method Default(values: seq<DefaultSpec>)
      modifies this`defaults
      ensures defaults == values
    {
      defaults := values;
    }

    /** `keynum`. */
    method KeyNum(value: string)
      requires Ready()
      modifies this`active
      ensures Ready()
      ensures active == NumberKey(old(active), value, |View()|, settings.enum.Some?)
    {
      if settings.enum.None? {
        return;
      }
      var v := ToI(value);
      if !(1 <= v <= |View()|) {
        return;
      }
      active := v;
    }

    /** `keyenter`, also bound as `keyreturn` and `keyspace`: confirms unless
        the view is empty. */
    method KeyEnter()
      modifies this`done
      ensures done == (old(done) || |View()| > 0)
    {
      if |View()| > 0 {
        done := true;
      }
    }

    /** `keyup`. */
    method KeyUp()
      requires Ready()
      modifies this`active
      ensures Ready()
      ensures active == StepUp(old(active), |View()|, settings.cycle)
    {
      if active == 1 {
        if settings.cycle {
          active := |View()|;
        }
      } else {
        active := active - 1;
      }
    }

    /** `keydown`, also bound as `keytab`. */
    method KeyDown()
      requires Ready()
      modifies this`active
      ensures Ready()
      ensures active == StepDown(old(active), |View()|, settings.cycle)
    {
      if active == |View()| {
        if settings.cycle {
          active := 1;
        }
      } else {
        active := active + 1;
      }
    }

    /** `keypress`: with filtering on, a filter key is appended to the
        filter and the first choice becomes active. */
    method KeyPress(value: string)
      requires Ready()
      modifies this`filter, this`active
      ensures Ready()
      ensures filter == AfterPress(old(filter), value)
      ensures active == if old(filter).Some? && IsFilterKey(value) then 1 else old(active)
      ensures IsSubsequence(View(), old(View()))
    {
      PressNarrowsView(items, filter, value);
      if filter.None? {
        return;
      }
      if IsFilterKey(value) {
        filter := Some(filter.value + value);
        active := 1;
      }
    }

    /** `keydelete`: with filtering on, clears the filter and activates the
        first choice. */
    method KeyDelete()
      requires Ready()
      modifies this`filter, this`active
      ensures Ready()
      ensures filter == AfterDelete(old(filter))
      ensures active == if old(filter).Some? then 1 else old(active)
      ensures old(filter).Some? ==> View() == items
    {
      if filter.None? {
        return;
      }
      filter := Some("");
      active := 1;
    }

    /** `keybackspace`: with filtering on, drops the filter's last character
        (nothing on an empty filter) and activates the first choice. */
    method KeyBackspace()
      requires Ready()
      modifies this`filter, this`active
      ensures Ready()
      ensures filter == AfterBackspace(old(filter))
      ensures active == if old(filter).Some? then 1 else old(active)
      ensures IsSubsequence(old(View()), View())
    {
      BackspaceWidensView(items, filter);
      if filter.None? {
        return;
      }
      var f := filter.value;
      if f != "" {
        f := f[..|f| - 1];
      }
      filter := Some(f);
      active := 1;
    }

    /** Delivers one key event to the handler of the same name; events with
        no handler change nothing. */
    method Dispatch(ev: KeyEvent)
      requires Ready()
      modifies this`active, this`filter, this`done
      ensures Ready()
      ensures Snap() == Handle(settings, items, old(Snap()), ev)
      ensures done && !old(done) ==> |View()| >= 1
    {
      match ev
      case KeyUp => KeyUp();
      case KeyDown => KeyDown();
      case KeyTab => KeyDown();
      case KeyNum(v) => KeyNum(v);
      case KeyEnter => KeyEnter();
      case KeyReturn => KeyEnter();
      case KeySpace => KeyEnter();
      case KeyPress(v) => KeyPress(v);
      case KeyDelete => KeyDelete();
      case KeyBackspace => KeyBackspace();
      case KeyOther(_) =>
    }

    /** `setup_defaults`: validates the defaults against the view and makes
        the first one active. */
    method SetupDefaults() returns (r: Outcome)
      modifies this`active
      ensures r == ValidateDefaults(defaults, |View()|)
      ensures r.Pass? ==> active == FirstDefault(defaults).value && Ready() && |View()| >= 1
      ensures r.Fail? ==> active == old(active)
    {
      r := ValidateDefaults(defaults, |View()|);
      if r.Pass? {
        active := defaults[0].index;
      }
    }

    /** `render_menu` over the window `lo`..`hi` the paginator yields, with
        `pagerMax` the paginator's `max_index`. */
    method RenderMenu(lo: nat, hi: nat, pagerMax: int) returns (output: string)
      requires lo <= hi <= |View()|
      ensures output == Menu(settings, View(), active, lo, hi, MaxIndex(settings, |View()|, pagerMax))
    {
      output := "";
      var s, view, current := settings, View(), active;
      var maxIndex := MaxIndex(s, |view|, pagerMax);
      var i := lo;
      while i < hi
        invariant lo <= i <= hi
        invariant output + Menu(s, view, current, i, hi, maxIndex) == Menu(s, view, current, lo, hi, maxIndex)
      {
        var message := Entry(s, view[i].name, i, current);
        var newline := if i == maxIndex then "" else "\n";
        MenuStep(output, s, view, current, i, hi, maxIndex);
        output := output + (message + newline);
        i := i + 1;
      }
    }

    /** `render_question`: the frame for the current state; drawing it ends
        the first render. */
    method RenderQuestion(lo: nat, hi: nat, pagerMax: int) returns (q: string)
      requires lo <= hi <= |View()|
      requires done ==> 1 <= active <= |View()|
      modifies this`firstRender
      ensures !firstRender
      ensures q == Frame(settings, View(), active, done, old(firstRender), filter, lo, hi, pagerMax)
    {
      var header := HeaderLine(settings, View(), active, done, firstRender, filter) + "\n";
      firstRender := false;
      var menu := RenderMenu(lo, hi, pagerMax);
      menu := menu + Footer(settings, |View()|);
      q := if done then header else header + menu;
    }

    /** `render_question` inside the loop: the frame for the current state,
        which the session `whole` that `printed` began shows next, followed
        by its erasure. */
    method DrawFrame(keys: seq<KeyEvent>, i: nat, width: nat, ghost printed: seq<Output>, ghost whole: seq<Output>)
      returns (q: string)
      requires width > 0 && i < |keys|
      requires Ready() && !done
      requires |items| <= PageSize(settings)
      requires Resumes(printed, settings, items, Snap(), firstRender, keys[i..], width, whole)
      modifies this`firstRender
      ensures !firstRender
      ensures Resumes(printed + [Print(q), ClearLines(TerminalLinecount(SplitLines(q), width))],
                      settings, items, Handle(settings, items, Snap(), keys[i]), false, keys[i + 1..], width, whole)
    {
      ghost var before := Snap();
      var n := |View()|;
      q := RenderQuestion(0, n, n - 1);
      ResumeTurn(printed, settings, items, before, old(firstRender), keys, i, width, whole, q);
    }

    /** One turn of the `until @done` loop of `render`: draw the frame for
        the current state, deliver key `i` to its handler, then erase as
        many rows as the frame took. What it prints is the next turn of the
        session `whole` that `printed` began, and the state it leaves is the
        replay from `start` one key further on. */
    method Turn(keys: seq<KeyEvent>, i: nat, width: nat, ghost start: Snapshot, ghost printed: seq<Output>, ghost whole: seq<Output>)
      returns (drawn: seq<Output>)
      requires width > 0 && i < |keys|
      requires Ready() && !done
      requires |items| <= PageSize(settings)
      requires Resumes(printed, settings, items, Snap(), firstRender, keys[i..], width, whole)
      requires ReplayResumes(settings, items, start, keys, Snap(), i)
      modifies this`active, this`filter, this`done, this`firstRender
      ensures Ready() && !firstRender
      ensures done ==> 1 <= active <= |View()|
      ensures ReplayResumes(settings, items, start, keys, Snap(), i + 1)
      ensures Resumes(printed + drawn, settings, items, Snap(), false, keys[i + 1..], width, whole)
    {
      var q := DrawFrame(keys, i, width, printed, whole);
      ReplayAdvance(settings, items, start, keys, Snap(), i);
      Dispatch(keys[i]);
      drawn := [Print(q), ClearLines(TerminalLinecount(SplitLines(q), width))];
    }

    /** The `until @done` loop of `render`: a turn for each key read, until a
        choice is confirmed or the keys run out. */
    method Loop(keys: seq<KeyEvent>, width: nat) returns (out: seq<Output>, consumed: nat)
      requires width > 0
      requires Ready() && !done
      requires |items| <= PageSize(settings)
      modifies this`active, this`filter, this`done, this`firstRender
      ensures (Snap(), consumed) == Replay(settings, items, old(Snap()), keys)
      ensures Ready() && (done ==> 1 <= active <= |View()|)
      ensures out == LoopOutput(settings, items, old(Snap()), old(firstRender), keys, width)
    {
      ghost var start := Snap();
      ghost var whole := LoopOutput(settings, items, start, firstRender, keys, width);
      out := [HideCursor];
      consumed := 0;
      while !done && consumed < |keys|
        invariant consumed <= |keys|
        invariant Ready()
        invariant ReplayResumes(settings, items, start, keys, Snap(), consumed)
        invariant Resumes(out, settings, items, Snap(), firstRender, keys[consumed..], width, whole)
        invariant done ==> 1 <= active <= |View()|
        decreases |keys| - consumed
      {
        var drawn := Turn(keys, consumed, width, start, out, whole);
        consumed := consumed + 1;
        out := out + drawn;
      }
      ResumesAtEnd(out, settings, items, Snap(), firstRender, keys[consumed..], width, whole);
      ReplayAtEnd(settings, items, start, keys, Snap(), consumed);
    }

    /** The frame `render` draws once a choice is confirmed: the question
        followed by the chosen name, on one line. */
    method FinalFrame() returns (q: string)
      requires done && 1 <= active <= |View()|
      modifies this`firstRender
      ensures !firstRender
      ensures q == settings.prefix + settings.question + " " + View()[active - 1].name + "\n"
    {
      var n := |View()|;
      q := RenderQuestion(0, n, n - 1);
      DoneFrame(settings, View(), active, old(firstRender), filter, 0, n, n - 1);
    }

    /** The end of `render`: once a choice is confirmed, the final frame and
        the chosen value; the cursor is shown again in any case. */
    method Finish() returns (tail: seq<Output>, answer: Option<V>)
      requires Ready() && (done ==> 1 <= active <= |View()|)
      modifies this`firstRender
      ensures answer.Some? <==> done
      ensures !done ==> tail == [ShowCursor]
      ensures done ==> answer == Some(View()[active - 1].value)
                       && tail == [Print(settings.prefix + settings.question + " " + View()[active - 1].name + "\n"), ShowCursor]
      ensures done ==> View()[active - 1] in items
                       && (FilterText(filter) == "" || Matches(View()[active - 1], FilterText(filter)))
    {
      if done {
        var q := FinalFrame();
        tail := [Print(q), ShowCursor];
        answer := Some(View()[active - 1].value);
        FilteredMembers(items, filter, View()[active - 1]);
      } else {
        tail := [ShowCursor];
        answer := None;
      }
    }

    /** `render` for a list that fits on one page, reading its keys from
        `keys`: draw a frame, deliver one key, erase as many rows as the
        frame took, until a choice is confirmed; then draw the final frame
        and answer the chosen value. If the keys run out first there is no
        answer. The cursor is hidden first and shown last. */
    method Render(keys: seq<KeyEvent>, width: nat) returns (out: seq<Output>, answer: Option<V>, consumed: nat)
      requires width > 0
      requires Ready() && !done
      requires |items| <= PageSize(settings)
      modifies this`active, this`filter, this`done, this`firstRender
      ensures (Snap(), consumed) == Replay(settings, items, old(Snap()), keys)
      ensures |out| == 2 * consumed + (if done then 3 else 2)
      ensures out[0] == HideCursor && out[|out| - 1] == ShowCursor
      ensures out[..2 * consumed + 1] == LoopOutput(settings, items, old(Snap()), old(firstRender), keys, width)
      ensures EraseMatchesFrames(out[..|out| - 1], width)
      ensures answer.Some? <==> done
      ensures done ==> 1 <= active <= |View()| && answer == Some(View()[active - 1].value)
      ensures done ==> out[|out| - 2] == Print(settings.prefix + settings.question + " " + View()[active - 1].name + "\n")
      ensures done ==> View()[active - 1] in items
                       && (FilterText(filter) == "" || Matches(View()[active - 1], FilterText(filter)))
    {
      var drawn;
      drawn, consumed := Loop(keys, width);
      LoopOutputShape(settings, items, old(Snap()), old(firstRender), keys, width);
      var tail;
      tail, answer := Finish();
      out := drawn + tail;
      if done {
        AppendFrame(drawn, tail[0].text, width, consumed);
        assert out[..|out| - 1] == drawn + [tail[0]];
      } else {
        assert out[..|out| - 1] == drawn;
      }
      assert out[..2 * consumed + 1] == drawn;
    }

    /** The part of `call` before the render loop: adds the choices, records
        the question and sets up the defaults. */
    method Prepare(question: string, possibilities: seq<Choice<V>>) returns (setup: Outcome)
      requires !done && FilterText(filter) == ""
      modifies this`items, this`settings, this`active
      ensures items == old(items) + possibilities && settings == old(settings).(question := question)
      ensures setup == ValidateDefaults(defaults, |items|)
      ensures setup.Pass? ==> Snap() == Snapshot(FirstDefault(defaults).value, filter, false) && Ready()
    {
      AddChoices(possibilities);
      settings := settings.(question := question);
      setup := SetupDefaults();
    }

    /** `call`: adds the choices, records the question, sets up the defaults
        (raising before anything is drawn when they are invalid) and runs
        the render loop. */
    method Call(question: string, possibilities: seq<Choice<V>>, keys: seq<KeyEvent>, width: nat)
      returns (r: Result<Option<V>>, out: seq<Output>)
      requires width > 0
      requires !done && FilterText(filter) == ""
      requires |items + possibilities| <= PageSize(settings.(question := question))
      modifies this
      ensures items == old(items) + possibilities
      ensures settings == old(settings).(question := question) && defaults == old(defaults)
      ensures r.Err? <==> ValidateDefaults(defaults, |items|).Fail?
      ensures r.Err? ==> r.error == ValidateDefaults(defaults, |items|).error && out == []
      ensures r.Ok? ==> (Snap(), (|out| - 2) / 2)
                        == Replay(settings, items, Snapshot(FirstDefault(defaults).value, old(filter), false), keys)
      ensures r.Ok? ==> |out| == (if done then 3 else 2) + 2 * ((|out| - 2) / 2)
      ensures r.Ok? ==> out[0] == HideCursor && out[|out| - 1] == ShowCursor
                        && EraseMatchesFrames(out[..|out| - 1], width)
      ensures r.Ok? ==> (r.value.Some? <==> done)
      ensures r.Ok? && done ==> 1 <= active <= |View()| && r.value == Some(View()[active - 1].value)
      ensures r.Ok? && done ==> out[|out| - 2] == Print(settings.prefix + settings.question + " " + View()[active - 1].name + "\n")
    {
      var setup := Prepare(question, possibilities);
      if setup.Fail? {
        return Err(setup.error), [];
      }
      var answer, consumed;
      out, answer, consumed := Render(keys, width);
      r := Ok(answer);
    }
  }

  /** `List.new`: refuses an options hash that names both `:enum` and
      `:filter`, and otherwise builds the list. */
  method NewList<V>(o: Options, promptPrefix: string, pointer: string) returns (r: Result<List<V>>)
    ensures r.Err? <==> o.enum.Present? && o.filter.Present?
    ensures r.Err? ==> r.error == EnumWithFilter
    ensures r.Ok? ==> fresh(r.value) && r.value.settings == SettingsFrom(o, promptPrefix, pointer)
                      && r.value.filter == FilterFrom(o) && r.value.defaults == DefaultsFrom(o)
                      && r.value.items == [] && !r.value.done && r.value.firstRender
                      && !(r.value.settings.enum.Some? && r.value.filter.Some?)
  {
    var check := CheckOptionsConsistency(o);
    if check.Fail? {
      return Err(check.error);
    }
    var l := new List<V>(o, promptPrefix, pointer);
    r := Ok(l);
  }

  /** A List with five choices and the default first one, confirmed at
      once: the answer is the first choice's value, and the transcript is
      one frame, its erasure and the final one-line frame. */
  method ConfirmAtOnce<V>(cs: seq<Choice<V>>, question: string, width: nat)
    returns (r: Result<Option<V>>, out: seq<Output>)
    requires |cs| == 5 && width > 0
    ensures r == Ok(Some(cs[0].value))
    ensures |out| == 5 && out[0] == HideCursor && out[4] == ShowCursor
    ensures out[1].Print? && out[2] == ClearLines(TerminalLinecount(SplitLines(out[1].text), width))
    ensures out[3] == Print(question + " " + cs[0].name + "\n")
  {
    var none := Options(Absent, Absent, Absent, Absent, Absent, Absent, None, None, None);
    var made := NewList<V>(none, "", ">");
    var list := made.value;
    r, out := list.Call(question, cs, [KeyEnter], width);
    var start := Snapshot(1, None, false);
    assert Handle(list.settings, cs, start, KeyEnter) == Snapshot(1, None, true);
    assert Replay(list.settings, cs, start, [KeyEnter]) == (Snapshot(1, None, true), 1) by {
      assert [KeyEnter][1..] == [];
    }
    assert list.View() == cs;
    assert |out| == 5;
    assert DrawnAt(out[..4], 2, width);
    assert out[..4][1] == out[1] && out[..4][2] == out[2];
  }
}
