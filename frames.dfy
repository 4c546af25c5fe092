/** The text of one frame of the List prompt: `render_question`,
    `render_header`, `render_menu`, `render_footer`, `default_help`,
    `page_size` and `paginated?`. Styling is not modelled, so decorated text
    is the plain text and stripping it changes nothing. */
module Frames {
  import opened Common
  import opened Text
  import opened Choices
  import opened Config
  import opened Navigation
  import opened LineCount

  /** The paginator's page size when `per_page` is not set. */
  const DEFAULT_PAGE_SIZE: int := 6

  /** `page_size`: `@per_page || Paginator::DEFAULT_PAGE_SIZE`. */
  function PageSize(s: Settings): int {
    s.perPage.GetOr(DEFAULT_PAGE_SIZE)
  }

  /** `paginated?`: the view holds more choices than one page. */
  predicate Paginated(s: Settings, count: nat) {
    count > PageSize(s)
  }

  /** `format(HELP, arrowHint, selectHint)`. */
  function FormatHelp(arrowHint: string, selectHint: string): string {
    "(Use arrow" + arrowHint + " keys, press Enter to select" + selectHint + ")"
  }

  /** The two tokens `default_help` formats into the help: numbering
      advertises the range of numbers; filtering (when numbering is off)
      advertises the letter keys. */
  function HelpTokens(enumerate: bool, filtering: bool, count: nat): (string, string) {
    if enumerate then (" or number (1-" + ToDecimal(count) + ")", "")
    else if filtering then ("", ", and letter keys to filter")
    else ("", "")
  }

  /** `default_help`: the help with its tokens filled in. */
  function DefaultHelp(enumerate: bool, filtering: bool, count: nat): string {
    var tokens := HelpTokens(enumerate, filtering, count);
    FormatHelp(tokens.0, tokens.1)
  }

  /** The help shown on the first frame: the `:help` option, else the default help. */
  function HelpText(s: Settings, filter: Option<string>, count: nat): string {
    match s.help
    case Some(h) => h
    case None => DefaultHelp(s.enum.Some?, filter.Some?, count)
  }

  /** `filter_help`. */
  function FilterHelp(f: string): string {
    "(Filter: " + Inspect(f) + ")"
  }

  /** `render_header`: the chosen name once done, the help on the first
      frame, the filter while one is typed, and nothing otherwise. */
  function Hint<V>(s: Settings, view: seq<Choice<V>>, active: int, done: bool, first: bool,
                   filter: Option<string>): string
    requires done ==> 1 <= active <= |view|
  {
    if done then view[active - 1].name
    else if first then HelpText(s, filter, |view|)
    else if FilterText(filter) != "" then FilterHelp(FilterText(filter))
    else ""
  }

  /** The first line of a frame, without its newline. */
  function HeaderLine<V>(s: Settings, view: seq<Choice<V>>, active: int, done: bool, first: bool,
                         filter: Option<string>): string
    requires done ==> 1 <= active <= |view|
  {
    s.prefix + s.question + " " + Hint(s, view, active, done, first, filter)
  }

  /** The menu line for the choice at 0-based `index`, without its newline:
      the marker on the active choice and two spaces on every other one,
      then the number when enumerating, then the name. */
  function Entry(s: Settings, name: string, index: nat, active: int): string {
    var num := match s.enum
      case Some(e) => ToDecimal(index + 1) + e + " "
      case None => "";
    if index + 1 == active then s.marker + " " + num + name else "  " + num + name
  }

  /** The index after which `render_menu` writes no newline: the paginator's
      last index when paginated, the last choice otherwise. */
  function MaxIndex(s: Settings, count: nat, pagerMax: int): int {
    if Paginated(s, count) then pagerMax else count - 1
  }

  /** The menu for the choices at indices `i` up to `hi` of the view. */
  function Menu<V>(s: Settings, view: seq<Choice<V>>, active: int, i: nat, hi: nat, maxIndex: int): string
    requires i <= hi <= |view|
    decreases hi - i
  {
    if i == hi then ""
    else
      Entry(s, view[i].name, i, active) + (if i == maxIndex then "" else "\n")
      + Menu(s, view, active, i + 1, hi, maxIndex)
  }

  /** Writing the entry for choice `i` after any text `pre` leaves the rest
      of the menu, from `i + 1`, still to be written. */
  lemma MenuStep<V>(pre: string, s: Settings, view: seq<Choice<V>>, active: int, i: nat, hi: nat, maxIndex: int)
    requires i < hi <= |view|
    ensures pre + Menu(s, view, active, i, hi, maxIndex)
            == (pre + (Entry(s, view[i].name, i, active) + (if i == maxIndex then "" else "\n")))
               + Menu(s, view, active, i + 1, hi, maxIndex)
  {
    var line := Entry(s, view[i].name, i, active) + (if i == maxIndex then "" else "\n");
    var rest := Menu(s, view, active, i + 1, hi, maxIndex);
    assert Menu(s, view, active, i, hi, maxIndex) == line + rest;
    assert pre + (line + rest) == (pre + line) + rest;
  }

  /** The menu's lines, one per choice from `i` up to `hi`. */
  function MenuEntries<V>(s: Settings, view: seq<Choice<V>>, active: int, i: nat, hi: nat): (r: seq<string>)
    requires i <= hi <= |view|
    ensures |r| == hi - i
    ensures forall k :: 0 <= k < |r| ==> r[k] == Entry(s, view[i + k].name, i + k, active)
    decreases hi - i
  {
    if i == hi then [] else [Entry(s, view[i].name, i, active)] + MenuEntries(s, view, active, i + 1, hi)
  }

  /** `render_footer`: the page help on a line of its own exactly when the
      view is paginated. */
  function Footer(s: Settings, count: nat): (r: string)
    ensures r != "" <==> Paginated(s, count)
  {
    if Paginated(s, count) then "\n" + s.pageHelp else ""
  }

  /** `render_question`: the header line, then, unless done, the menu over
      the visible window `lo`..`hi` and the footer. */
  function Frame<V>(s: Settings, view: seq<Choice<V>>, active: int, done: bool, first: bool,
                    filter: Option<string>, lo: nat, hi: nat, pagerMax: int): string
    requires lo <= hi <= |view|
    requires done ==> 1 <= active <= |view|
  {
    HeaderLine(s, view, active, done, first, filter) + "\n"
    + (if done then ""
       else Menu(s, view, active, lo, hi, MaxIndex(s, |view|, pagerMax)) + Footer(s, |view|))
  }

  /** Every frame starts with the prefix, the question and the header hint,
      on a line of their own. */
  lemma FrameStartsWithHeader<V>(s: Settings, view: seq<Choice<V>>, active: int, done: bool, first: bool,
                                 filter: Option<string>, lo: nat, hi: nat, pagerMax: int)
    requires lo <= hi <= |view|
    requires done ==> 1 <= active <= |view|
    ensures IsPrefix(s.prefix + s.question + " " + Hint(s, view, active, done, first, filter) + "\n",
                     Frame(s, view, active, done, first, filter, lo, hi, pagerMax))
  {
    var head := HeaderLine(s, view, active, done, first, filter) + "\n";
    var body := if done then "" else Menu(s, view, active, lo, hi, MaxIndex(s, |view|, pagerMax)) + Footer(s, |view|);
    PrefixOfAppend(head, body);
  }

  /** The final frame is one line: prefix, question and the chosen name. */
  lemma DoneFrame<V>(s: Settings, view: seq<Choice<V>>, active: int, first: bool,
                     filter: Option<string>, lo: nat, hi: nat, pagerMax: int)
    requires lo <= hi <= |view|
    requires 1 <= active <= |view|
    ensures Frame(s, view, active, true, first, filter, lo, hi, pagerMax)
            == s.prefix + s.question + " " + view[active - 1].name + "\n"
  {
  }

  /** A menu line starts with the marker exactly when its choice is the
      active one; every other line starts with two spaces. */
  lemma MarkerIffActive(s: Settings, name: string, index: nat, active: int)
    requires |s.marker| >= 1 && s.marker[0] != ' '
    ensures IsPrefix(s.marker + " ", Entry(s, name, index, active)) <==> index + 1 == active
    ensures index + 1 != active ==> IsPrefix("  ", Entry(s, name, index, active))
  {
    var e := Entry(s, name, index, active);
    if index + 1 != active {
      assert e[0] == ' ';
    } else {
      assert e == (s.marker + " ") + (e[|s.marker| + 1..]);
      PrefixOfAppend(s.marker + " ", e[|s.marker| + 1..]);
    }
  }

  /** Over the whole menu, the marked lines are exactly the active one. */
  lemma MenuMarksActive<V>(s: Settings, view: seq<Choice<V>>, active: int, lo: nat, hi: nat, k: nat)
    requires lo <= hi <= |view| && k < hi - lo
    requires |s.marker| >= 1 && s.marker[0] != ' '
    ensures IsPrefix(s.marker + " ", MenuEntries(s, view, active, lo, hi)[k]) <==> lo + k + 1 == active
  {
    MarkerIffActive(s, view[lo + k].name, lo + k, active);
  }

  /** Without pagination the menu is its lines joined by newlines, with no
      newline after the last. */
  lemma {:induction false} MenuIsJoinedEntries<V>(s: Settings, view: seq<Choice<V>>, active: int, i: nat, hi: nat)
    requires i < hi <= |view|
    ensures Menu(s, view, active, i, hi, hi - 1) == JoinLines(MenuEntries(s, view, active, i, hi))
    decreases hi - i
  {
    if i < hi - 1 {
      MenuIsJoinedEntries(s, view, active, i + 1, hi);
      var es := MenuEntries(s, view, active, i, hi);
      assert es[1..] == MenuEntries(s, view, active, i + 1, hi);
    }
  }

  /** Every text the configuration contributes to a frame fits on one line. */
  predicate SingleLine(s: Settings) {
    && NoNewline(s.prefix) && NoNewline(s.question) && NoNewline(s.marker)
    && (s.enum.Some? ==> NoNewline(s.enum.value))
    && (s.help.Some? ==> NoNewline(s.help.value))
  }

  predicate NamesSingleLine<V>(view: seq<Choice<V>>) {
    forall i :: 0 <= i < |view| ==> NoNewline(view[i].name)
  }

  lemma DefaultHelpSingleLine(enumerate: bool, filtering: bool, count: nat)
    ensures NoNewline(DefaultHelp(enumerate, filtering, count))
  {
    var a, b := "", "";
    if enumerate {
      a := " or number (1-" + ToDecimal(count) + ")";
      NoNewlineAppend(" or number (1-", ToDecimal(count));
      NoNewlineAppend(" or number (1-" + ToDecimal(count), ")");
    } else if filtering {
      b := ", and letter keys to filter";
    }
    NoNewlineAppend("(Use arrow", a);
    NoNewlineAppend("(Use arrow" + a, " keys, press Enter to select");
    NoNewlineAppend("(Use arrow" + a + " keys, press Enter to select", b);
    NoNewlineAppend("(Use arrow" + a + " keys, press Enter to select" + b, ")");
  }

  lemma EntrySingleLine(s: Settings, name: string, index: nat, active: int)
    requires SingleLine(s) && NoNewline(name)
    ensures NoNewline(Entry(s, name, index, active))
  {
    var num := match s.enum
      case Some(e) => ToDecimal(index + 1) + e + " "
      case None => "";
    if s.enum.Some? {
      NoNewlineAppend(ToDecimal(index + 1), s.enum.value);
      NoNewlineAppend(ToDecimal(index + 1) + s.enum.value, " ");
    }
    NoNewlineAppend(s.marker, " ");
    NoNewlineAppend(s.marker + " ", num);
    NoNewlineAppend(s.marker + " " + num, name);
    NoNewlineAppend("  ", num);
    NoNewlineAppend("  " + num, name);
  }

  lemma HeaderSingleLine<V>(s: Settings, view: seq<Choice<V>>, active: int, first: bool, filter: Option<string>)
    requires SingleLine(s)
    ensures NoNewline(HeaderLine(s, view, active, false, first, filter))
  {
    var h := Hint(s, view, active, false, first, filter);
    assert NoNewline(h) by {
      if first && s.help.None? {
        DefaultHelpSingleLine(s.enum.Some?, filter.Some?, |view|);
      }
      if !first && FilterText(filter) != "" {
        NoNewlineAppend("(Filter: ", Inspect(FilterText(filter)));
        NoNewlineAppend("(Filter: " + Inspect(FilterText(filter)), ")");
      }
    }
    NoNewlineAppend(s.prefix, s.question);
    NoNewlineAppend(s.prefix + s.question, " ");
    NoNewlineAppend(s.prefix + s.question + " ", h);
  }

  lemma LinesAfterHeader(h: string, m: string)
    requires NoNewline(h)
    ensures SplitLines(h + "\n" + m) == [h] + Fields(m)
  {
    assert Fields("\n" + m) == [""] + Fields(m) by {
      assert ("\n" + m)[1..] == m;
    }
    assert h + "\n" + m == h + ("\n" + m);
    FieldsPrepend(h, "\n" + m);
    assert h + "" == h;
    assert ([""] + Fields(m))[1..] == Fields(m);
  }

  /** Split into lines as the render loop does, an unpaginated frame is the
      header line followed by one line per choice, or by one empty line
      when no choice matches the filter. */
  lemma FrameLines<V>(s: Settings, view: seq<Choice<V>>, active: int, first: bool,
                      filter: Option<string>, pagerMax: int)
    requires SingleLine(s) && NamesSingleLine(view)
    requires !Paginated(s, |view|)
    ensures SplitLines(Frame(s, view, active, false, first, filter, 0, |view|, pagerMax))
            == [HeaderLine(s, view, active, false, first, filter)]
               + (if |view| == 0 then [""] else MenuEntries(s, view, active, 0, |view|))
  {
    var h := HeaderLine(s, view, active, false, first, filter);
    var m := Menu(s, view, active, 0, |view|, |view| - 1);
    HeaderSingleLine(s, view, active, first, filter);
    assert Frame(s, view, active, false, first, filter, 0, |view|, pagerMax) == h + "\n" + m by {
      assert m + "" == m;
    }
    LinesAfterHeader(h, m);
    if |view| > 0 {
      MenuIsJoinedEntries(s, view, active, 0, |view|);
      var es := MenuEntries(s, view, active, 0, |view|);
      forall k | 0 <= k < |es| ensures NoNewline(es[k]) {
        EntrySingleLine(s, view[k].name, k, active);
      }
      FieldsOfJoin(es);
    }
  }

  /** Hence the rows the loop erases after an unpaginated frame cover the
      header and every menu line (at least one), and are exactly that many
      when no line is wider than the terminal. */
  lemma FrameRows<V>(s: Settings, view: seq<Choice<V>>, active: int, first: bool,
                     filter: Option<string>, pagerMax: int, width: nat)
    requires width > 0
    requires SingleLine(s) && NamesSingleLine(view)
    requires !Paginated(s, |view|)
    ensures var rows := TerminalLinecount(SplitLines(Frame(s, view, active, false, first, filter, 0, |view|, pagerMax)), width);
            rows >= 1 + (if |view| == 0 then 1 else |view|)
    ensures |HeaderLine(s, view, active, false, first, filter)| <= width
            && (forall i :: 0 <= i < |view| ==> |Entry(s, view[i].name, i, active)| <= width)
            ==> TerminalLinecount(SplitLines(Frame(s, view, active, false, first, filter, 0, |view|, pagerMax)), width)
                == 1 + (if |view| == 0 then 1 else |view|)
  {
    FrameLines(s, view, active, first, filter, pagerMax);
    var lines := SplitLines(Frame(s, view, active, false, first, filter, 0, |view|, pagerMax));
    if |HeaderLine(s, view, active, false, first, filter)| <= width
       && (forall i :: 0 <= i < |view| ==> |Entry(s, view[i].name, i, active)| <= width) {
      LinecountNoWrap(lines, width);
    }
  }

  /** With numbering on, the help advertises the range 1..count, and typing
      any numeral in that range selects that choice. */
  lemma AdvertisedRangeSelects(filtering: bool, active: int, count: nat)
    ensures DefaultHelp(true, filtering, count)
            == FormatHelp(" or number (1-" + ToDecimal(count) + ")", "")
    ensures forall v: nat :: 1 <= v <= count ==> NumberKey(active, ToDecimal(v), count, true) == v
  {
    forall v: nat | 1 <= v <= count ensures NumberKey(active, ToDecimal(v), count, true) == v {
      NumberKeySelects(active, v, count);
    }
  }
}
