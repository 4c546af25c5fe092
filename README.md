# tty-prompt List widget in Dafny

This project models the single-select **List** prompt of tty-prompt (`TTY::Prompt::List`).
The prompt shows a question and a menu of choices. The user moves a marker with the arrow
keys, or types a number when the menu is enumerated, or types letters to filter the menu.
Enter, return or space confirms. The prompt then redraws itself as a one-line summary and
returns the chosen value.

Between keys, the prompt erases the frame it drew. It erases exactly as many terminal rows
as the frame took once long lines wrap.

The model has these modules:

- `Common`: Ruby's `nil`-or-value, presence of an options key, an arithmetic fact and the
  associativity of concatenation.
- `Text`: the parts of Ruby's `String` the widget relies on: `downcase`, `include?`, `to_i`,
  `Integer#to_s`, `split("\n", -1)`/`join("\n")` and `inspect`.
- `Choices`: the choice collection and the filtered view `choices` returns.
- `Navigation`: `keyup`, `keydown` and `keynum` as functions of the active index.
- `LineCount`: `terminal_linecount`, the rows a frame takes on a terminal of a given width.
- `Config`: the options hash, the settings it yields, and the eager checks
  (`check_options_consistency`, `validate_defaults`).
- `Frames`: the text of one frame (`render_question`, `render_header`, `render_menu`,
  `render_footer`, `default_help`, `paginated?`).
- `ListPrompt`: the class `List`, whose methods update `active`, `filter`, `done` and
  `first_render` in place.

`ListPrompt` also contains:

- The pure key semantics `Handle`/`Replay`, which the render loop is proved against.
- The transcript of terminal output the render loop produces.

Styling is not modelled. Decorated text is the plain text, so stripping it changes nothing.

Two behaviours of the code differ from what a reader of the key bindings might expect, and the model keeps them:

- Tab moves down. It is bound as `keydown` (`lib/tty/prompt/list.rb:223`) and does not confirm.
- Up and down are not no-ops on an empty view. `keyup` at 1 with cycling sets `active` to 0,
  and `keydown` increments past the end (`lib/tty/prompt/list.rb:208-222`). The model keeps
  this. It proves the range property only for a non-empty view.

## Model

| member | source | states |
|---|---|---|
| Text.Downcase | lib/tty/prompt/list.rb:166 | `downcase` keeps the length and lower-cases each character, position by position |
| Text.DowncaseAppend | lib/tty/prompt/list.rb:166 | `downcase` distributes over concatenation |
| Text.ContainsAt | lib/tty/prompt/list.rb:166 | `include?` holds exactly when the pattern occurs at some position |
| Text.ContainsDropSuffix | lib/tty/prompt/list.rb:166 | a string containing `a + b` contains `a` |
| Text.ToDecimal | lib/tty/prompt/list.rb:382 | `(index + 1).to_s` is a non-empty digit string without a leading zero |
| Text.LeadingDigits | lib/tty/prompt/list.rb:197 | the digits `to_i` reads are the longest digit prefix |
| Text.DecimalRoundTrip | lib/tty/prompt/list.rb:197 | `n.to_s.to_i == n`: the numeral printed before a choice reads back as its index |
| Text.ToI | lib/tty/prompt/list.rb:197 | `to_i` skips leading white space, reads an optional sign and the longest run of digits (0 when there are none); a negative result needs a leading minus |
| Text.Contains | lib/tty/prompt/list.rb:166 | `include?`: the pattern occurs as a contiguous block; its positional meaning is `ContainsAt` |
| Text.IntToString | lib/tty/prompt/list.rb:276 | `#{d}` for an integer: a minus sign before the digits of a negative one, else `ToDecimal` |
| Text.SplitLines | lib/tty/prompt/list.rb:298 | `split("\n", -1)`: no fields for the empty string, else `Fields`; `SplitJoin` and `JoinSplit` relate it to joining |
| Text.Fields | lib/tty/prompt/list.rb:298 | splitting on newlines yields at least one field, none containing a newline |
| Text.JoinFields | lib/tty/prompt/list.rb:296-298 | joining the fields with newlines gives the string back |
| Text.FieldsOfJoin | lib/tty/prompt/list.rb:296-298 | splitting newline-free lines joined with newlines gives the lines back, trailing empty ones included |
| Text.SplitJoin | lib/tty/prompt/list.rb:298 | `split("\n", -1)` inverts `join("\n")` except on the single empty line |
| Text.JoinSplit | lib/tty/prompt/list.rb:298 | `join("\n")` inverts `split("\n", -1)` on every string |
| Text.Inspect | lib/tty/prompt/list.rb:354 | `inspect` never produces a newline, so the filter hint stays on the header line |
| Text.InspectWord | lib/tty/prompt/list.rb:354 | a filter made of word characters is shown as itself between quotes |
| Choices.Select | lib/tty/prompt/list.rb:165-167 | selection never lengthens the collection |
| Choices.SelectIsSubsequence | lib/tty/prompt/list.rb:165-167 | the selection keeps the collection's order |
| Choices.SelectMembers | lib/tty/prompt/list.rb:165-167 | a choice is selected iff it is in the collection and its downcased name contains the downcased filter |
| Choices.SelectEmptyPattern | lib/tty/prompt/list.rb:162-167 | selecting with the empty pattern returns the whole collection, so the empty-filter shortcut agrees with filtering |
| Choices.SelectNarrows | lib/tty/prompt/list.rb:165-167 | a longer pattern selects a subsequence of what the shorter one selects |
| Choices.Filtered | lib/tty/prompt/list.rb:160-168 | `choices`: the whole collection while the filter is off or empty, otherwise the choices whose downcased name contains the downcased filter; never longer than the collection |
| Choices.FilteredNarrows | lib/tty/prompt/list.rb:160-168 | extending the filter text never enlarges the view (subsequence and length) |
| Choices.FilteredIsSubsequence | lib/tty/prompt/list.rb:160-168 | every view is an order-preserving part of the collection, no longer than it |
| Choices.FilteredMembers | lib/tty/prompt/list.rb:160-168 | a choice is in the view iff it is in the collection and the typed filter (if any) matches it |
| Navigation.StepUp | lib/tty/prompt/list.rb:208-214 | `keyup` keeps an in-range active index in range |
| Navigation.StepDown | lib/tty/prompt/list.rb:216-222 | `keydown` keeps an in-range active index in range |
| Navigation.UpDownInverse | lib/tty/prompt/list.rb:208-222 | up then down (and down then up) returns to the start, always when cycling, else away from the clamped boundary |
| Navigation.ApplyMoves | lib/tty/prompt/list.rb:208-222 | any sequence of arrow keys keeps the active index within 1..size |
| Navigation.DownStepsClosedForm | lib/tty/prompt/list.rb:216-222 | k downs: `(a - 1 + k) mod n + 1` when cycling, `min(a + k, n)` otherwise |
| Navigation.UpStepsClosedForm | lib/tty/prompt/list.rb:208-214 | k ups: `(a - 1 - k) mod n + 1` when cycling, `max(a - k, 1)` otherwise |
| Navigation.NumberKey | lib/tty/prompt/list.rb:195-200 | with numbering on and `to_i` of the key in 1..count the index becomes that value; otherwise it is unchanged |
| Navigation.NumberKeySelects | lib/tty/prompt/list.rb:195-200 | typing the numeral of any index from 1 to the view size selects it |
| LineCount.Rows | lib/tty/prompt/list.rb:311 | each line takes at least one row |
| LineCount.RowsIsCeiling | lib/tty/prompt/list.rb:311 | `1 + [len - 1, 0].max / width` is the ceiling of `len / width`, and 1 for an empty line |
| LineCount.TerminalLinecount | lib/tty/prompt/list.rb:308-314 | the count of a frame is at least its number of lines |
| LineCount.LinecountAppend | lib/tty/prompt/list.rb:308-314 | the count of two blocks of lines is the sum of their counts |
| LineCount.LinecountNoWrap | lib/tty/prompt/list.rb:308-314 | with no line wider than the terminal, the count is the number of lines |
| LineCount.RowsWider | lib/tty/prompt/list.rb:311 | a line takes no more rows on a wider terminal |
| LineCount.LinecountWider | lib/tty/prompt/list.rb:308-314 | a frame takes no more rows on a wider terminal |
| Config.Message | lib/tty/prompt/list.rb:268-279 | both default errors carry a message starting with "default index " |
| Config.MessageNamesRange | lib/tty/prompt/list.rb:270-277 | both default errors end their message by naming the valid range `(1 - size)` |
| Config.MessageQuotesIndex | lib/tty/prompt/list.rb:274-277 | the out-of-range message quotes the offending index between backticks |
| Config.SettingsFrom | lib/tty/prompt/list.rb:43-57 | the settings `initialize` reads from the options: the prefix falls back to the prompt's and the marker to the `pointer` symbol, numbering as `:enum` gives it, wrap-around only when `:cycle` is true, the `:help` and `:per_page` given or none, the page help given or `PAGE_HELP` |
| Config.DefaultsFrom | lib/tty/prompt/list.rb:46 | `Array[options.fetch(:default) { 1 }]`: the one requested default, or index 1 |
| Config.FilterFrom | lib/tty/prompt/list.rb:53 | filtering on starts with the empty filter text; off is `nil` |
| Config.CheckOptionsConsistency | lib/tty/prompt/list.rb:250-255 | refuses exactly the options naming both `:enum` and `:filter`, with the enum-with-filter error |
| Config.ConsistentOptionsExclusive | lib/tty/prompt/list.rb:40-57 | options that pass the check never turn on both numbering and filtering |
| Config.ValidateEach | lib/tty/prompt/list.rb:268-279 | as written: passes iff every default is an integer in 1..size; otherwise fails with the error of the first bad default |
| Config.EmptyDefaultsPassAsWritten | lib/tty/prompt/list.rb:74-76 | as written, `default()` with no arguments passes validation and leaves no first default |
| Config.ValidateDefaults | lib/tty/prompt/list.rb:268-279 | corrected: passes iff there is at least one default and all are in 1..size; success yields an in-range first default |
| Config.DefaultBoundaries | lib/tty/prompt/list.rb:274-277 | 0 and size + 1 are refused as out of range; every index in between is accepted |
| Frames.PageSize | lib/tty/prompt/list.rb:85-87 | `page_size`: the `:per_page` option, else the paginator's default of 6 |
| Frames.Paginated | lib/tty/prompt/list.rb:94-96 | `paginated?`: the view holds more choices than one page |
| Frames.DefaultHelp | lib/tty/prompt/list.rb:122-133 | `default_help`: the help format filled with the number range when numbering is on, else the letter-key hint when filtering is on, else nothing |
| Frames.HelpText | lib/tty/prompt/list.rb:113-117 | the help the first frame shows: the `:help` option when given, else `default_help` |
| Frames.FilterHelp | lib/tty/prompt/list.rb:353-355 | `filter_help`: the filter text, inspected, inside `(Filter: …)` |
| Frames.Hint | lib/tty/prompt/list.rb:362-371 | `render_header`: the chosen name once done, else the help on the first render, else the filter help while filter text is typed, else nothing |
| Frames.HeaderLine | lib/tty/prompt/list.rb:340 | the header line: prefix, question, a space and the `render_header` hint |
| Frames.MaxIndex | lib/tty/prompt/list.rb:389 | the index after which no newline follows: the paginator's `max_index` when paginated, else the last index of the view |
| Frames.Entry | lib/tty/prompt/list.rb:382-388 | one menu line: the marker, a space and the numeral (when numbering) before the active choice's name, two spaces before the others |
| Frames.Menu | lib/tty/prompt/list.rb:378-395 | `render_menu` over a window: the entries in order, each followed by a newline except the one at `max_index` |
| Frames.Frame | lib/tty/prompt/list.rb:339-346 | `render_question`: the header line, then menu and footer unless done |
| Frames.MenuEntries | lib/tty/prompt/list.rb:381-392 | one menu line per choice in the window, each that choice's entry |
| Frames.Footer | lib/tty/prompt/list.rb:402-406 | the footer is non-empty iff the view is paginated |
| Frames.FrameStartsWithHeader | lib/tty/prompt/list.rb:339-346 | every frame starts with prefix, question and header hint on a line of their own |
| Frames.DoneFrame | lib/tty/prompt/list.rb:339-346 | once done, the frame is just prefix, question and the chosen name: no menu, no footer |
| Frames.MarkerIffActive | lib/tty/prompt/list.rb:382-388 | a menu line starts with the marker iff its index + 1 is the active index; others start with two spaces |
| Frames.MenuMarksActive | lib/tty/prompt/list.rb:378-395 | over the whole menu, the marked lines are exactly the active one |
| Frames.MenuIsJoinedEntries | lib/tty/prompt/list.rb:389-391 | unpaginated, the menu is its lines joined by newlines with none after the last |
| Frames.DefaultHelpSingleLine | lib/tty/prompt/list.rb:122-133 | the default help is a single line |
| Frames.EntrySingleLine | lib/tty/prompt/list.rb:382-388 | a menu line built from single-line parts is a single line |
| Frames.HeaderSingleLine | lib/tty/prompt/list.rb:362-371 | the header line holds no newline when the configured texts hold none |
| Frames.FrameLines | lib/tty/prompt/list.rb:296-298 | an unpaginated frame splits into the header line and one line per choice, or one empty line when nothing matches |
| Frames.FrameRows | lib/tty/prompt/list.rb:298-300 | the rows erased after a frame cover the header and every menu line, exactly that many when nothing wraps |
| Frames.AdvertisedRangeSelects | lib/tty/prompt/list.rb:122-133 | numbering help advertises 1..count, and every numeral in that range selects its choice |
| ListPrompt.PressNarrowsView | lib/tty/prompt/list.rb:225-232 | typing into the filter never adds a choice to the view |
| ListPrompt.BackspaceWidensView | lib/tty/prompt/list.rb:241-246 | backspace never removes a choice from the view |
| ListPrompt.DeleteShowsAll | lib/tty/prompt/list.rb:234-239 | delete shows the whole collection when filtering is on and changes nothing otherwise |
| ListPrompt.AfterPress | lib/tty/prompt/list.rb:226-231 | the filter after `keypress`: a filter key appended while filtering is on, otherwise unchanged |
| ListPrompt.AfterDelete | lib/tty/prompt/list.rb:235-238 | the filter after `keydelete`: emptied while filtering is on |
| ListPrompt.AfterBackspace | lib/tty/prompt/list.rb:242-245 | the filter after `keybackspace`: its last character dropped, if any |
| ListPrompt.IsFilterKey | lib/tty/prompt/list.rb:23 | `FILTER_KEYS_MATCHER`: exactly a single word character, or a word character followed by one newline |
| ListPrompt.Handle | lib/tty/prompt/list.rb:195-246 | the state after each key's handler: arrows and tab step the active index, a numeral selects, enter, return and space confirm, press, delete and backspace edit the filter and reactivate the first choice, other keys change nothing |
| ListPrompt.HandleConfirmsAndFilters | lib/tty/prompt/list.rb:195-246 | done becomes true exactly on enter, return or space with a non-empty view; only `keypress`, `keydelete` and `keybackspace` change the filter, and only when filtering is on |
| ListPrompt.HandleKeepsReady | lib/tty/prompt/list.rb:195-246 | every key handler keeps the active index inside a non-empty view |
| ListPrompt.Replay | lib/tty/prompt/list.rb:291-301 | keys are read until one confirms or they run out; a done state reads none |
| ListPrompt.ReplayStep | lib/tty/prompt/list.rb:291-301 | reading one more key is that key's handler followed by the rest |
| ListPrompt.ReplayKeepsReady | lib/tty/prompt/list.rb:291-301 | the active index stays inside a non-empty view for the whole interaction |
| ListPrompt.ReplayIgnoresRest | lib/tty/prompt/list.rb:291-301 | keys after the confirming one are never read |
| ListPrompt.ReplayAppend | lib/tty/prompt/list.rb:291-301 | replaying in two parts equals replaying the whole, counts added |
| ListPrompt.ReplayAdvance | lib/tty/prompt/list.rb:291-294 | once `i` keys are read, delivering key `i` to its handler leaves the replay to resume one key further on |
| ListPrompt.ReplayAtEnd | lib/tty/prompt/list.rb:291 | a replay resumed from a confirmed state, or with no keys left, has ended there |
| ListPrompt.ShownFrame | lib/tty/prompt/list.rb:292 | the frame the loop draws for a state not yet done: `render_question` over the whole filtered view as one page |
| ListPrompt.Session | lib/tty/prompt/list.rb:291-301 | what the `until @done` loop prints: for each key read, the frame of the state before it and the erasure of that frame's rows, stopping at the first confirmation or when the keys run out |
| ListPrompt.SessionLength | lib/tty/prompt/list.rb:291-301 | the loop prints two entries for every key it reads |
| ListPrompt.SessionStep | lib/tty/prompt/list.rb:291-300 | before a confirmation, the loop prints the frame for the current state (the whole view as one page), erases that frame's rows, then continues from the state the key's handler leaves; only the first frame is a first render |
| ListPrompt.SessionErasesFrames | lib/tty/prompt/list.rb:292-300 | every frame the loop prints is followed by the erasure of exactly its rows |
| ListPrompt.ResumeTurn | lib/tty/prompt/list.rb:292-300 | printing the current state's frame and its erasure resumes the session from the state the next key leads to |
| ListPrompt.ResumesAtEnd | lib/tty/prompt/list.rb:291 | once a choice is confirmed or the keys run out, the loop prints nothing more |
| ListPrompt.LoopOutput | lib/tty/prompt/list.rb:290-301 | what `render` prints before its final frame: the hidden cursor, then the session |
| ListPrompt.LoopOutputShape | lib/tty/prompt/list.rb:290-301 | the loop's output is the hidden cursor and two entries per key read, each erasure matching its frame |
| ListPrompt.AppendTurn | lib/tty/prompt/list.rb:292-300 | a frame followed by its erasure keeps the transcript alternating with matching erase counts |
| ListPrompt.AppendFrame | lib/tty/prompt/list.rb:302 | the final frame keeps the transcript well formed |
| ListPrompt.List.constructor | lib/tty/prompt/list.rb:39-62 | settings, defaults, filter and first active index taken from the options; numbering and filtering never both on |
| ListPrompt.List.AddChoices | lib/tty/prompt/list.rb:169-171 | choices are appended in order |
| ListPrompt.List.Default | lib/tty/prompt/list.rb:74-76 | the requested defaults are replaced by the given list |
| ListPrompt.List.KeyNum | lib/tty/prompt/list.rb:195-200 | the active index becomes the key's value when numbering is on and it is in range, else is unchanged; the invariant is kept |
| ListPrompt.List.KeyEnter | lib/tty/prompt/list.rb:202-206 | done becomes true iff the view is non-empty (or it already was) |
| ListPrompt.List.KeyUp | lib/tty/prompt/list.rb:208-214 | the active index moves up, wrapping or clamping at 1; the invariant is kept |
| ListPrompt.List.KeyDown | lib/tty/prompt/list.rb:216-223 | the active index moves down, wrapping or clamping at the end; the invariant is kept |
| ListPrompt.List.KeyPress | lib/tty/prompt/list.rb:225-232 | with filtering on, a filter key is appended and the first choice activated; otherwise nothing changes; the new view is a subsequence of the old |
| ListPrompt.List.KeyDelete | lib/tty/prompt/list.rb:234-239 | with filtering on, the filter empties, the first choice is active and the view is the whole collection |
| ListPrompt.List.KeyBackspace | lib/tty/prompt/list.rb:241-246 | with filtering on, the last filter character goes and the first choice is active; the old view is a subsequence of the new |
| ListPrompt.List.Dispatch | lib/tty/prompt/list.rb:195-246 | each key event runs its handler: the new state is `Handle` of the old; a fresh confirmation implies a non-empty view |
| ListPrompt.List.SetupDefaults | lib/tty/prompt/list.rb:260-263 | validation against the view; on success the first default is active and in range |
| ListPrompt.List.RenderMenu | lib/tty/prompt/list.rb:378-395 | the appending loop builds exactly the menu text for the window |
| ListPrompt.List.RenderQuestion | lib/tty/prompt/list.rb:339-346 | the frame is the header line, then menu and footer unless done; the first render is over |
| ListPrompt.List.DrawFrame | lib/tty/prompt/list.rb:292-300 | the frame `render_question` returns, with its erasure, is the next turn of the session for the current state |
| ListPrompt.List.Turn | lib/tty/prompt/list.rb:292-300 | one turn prints the session's next frame and erasure and advances the replay by the key it delivers |
| ListPrompt.List.Loop | lib/tty/prompt/list.rb:290-301 | the loop's final state and key count are `Replay` of the keys; its output is exactly the hidden cursor followed by the session's frames (each the frame of the state before the key) and their erasures |
| ListPrompt.List.FinalFrame | lib/tty/prompt/list.rb:302 | once done, `render_question` is prefix, question and the chosen name on one line |
| ListPrompt.List.Finish | lib/tty/prompt/list.rb:302-305 | once done, the final frame is printed and the answer is the active choice's value, a member of the collection that matches the filter; the cursor is shown in any case |
| ListPrompt.List.Render | lib/tty/prompt/list.rb:289-306 | the state is `Replay` of the keys; cursor hidden first and shown last; everything before the final frame is the loop's session; every erasure matches its frame; once done, the answer is the active choice's value, drawn as prefix, question and name, a member of the collection that matches the filter |
| ListPrompt.List.Prepare | lib/tty/prompt/list.rb:180-184 | choices appended and question recorded; the defaults' validation outcome, and on success the first default active and in range |
| ListPrompt.List.Call | lib/tty/prompt/list.rb:180-186 | choices appended, question set; invalid defaults raise before anything is drawn; otherwise the interaction is `Replay` from the first default |
| ListPrompt.NewList | lib/tty/prompt/list.rb:39-62 | construction raises the enum-with-filter error exactly for options naming both keys |
| ListPrompt.ConfirmAtOnce | lib/tty/prompt/list.rb:289-306 | five choices, default 1, enter at once: the first choice's value, one frame, one erasure of its rows, the one-line final frame |

## Left out

- Styling (`@prompt.decorate`, `Pastel#strip`, colours, `active_color`/`help_color`) is the identity. Decorated text is the plain text.
- `TTY::Screen.width` is a parameter of the row count.
- Terminal I/O (`print`, `hide`, `show`, `clear_lines`, `read_keypress`) is a transcript of `Output` values. The keys read are a finite sequence.
- `@prompt.subscribe` and the event dispatch by handler name are the `Dispatch` method.
- `ListPrompt.List.Render`: when the keys run out before a confirmation, the model stops and answers `None`, where the program would block reading more keys. `ensure` shows the cursor on every path; the model shows it on the one path there is.
- `ListPrompt.List.Call`, `ListPrompt.List.Render`, `ListPrompt.List.Loop`, `ListPrompt.List.Turn` and `ListPrompt.List.DrawFrame`: model only the unpaginated case (at most `page_size` choices, counting the choices `Call` adds), which each of them requires. `Paginator#paginate` and `max_index` are not part of this model. `RenderMenu` and `RenderQuestion` take the paginator's window and `max_index` as parameters.
- `ListPrompt.List.Call`: states the interaction's final state, the transcript's shape, its erasures and the final frame. The text of each intermediate frame is stated one level down, by `Render` and `Loop`.
- `ListPrompt.List.Prepare`: validates with the corrected `Config.ValidateDefaults`, so an empty default list yields `Fail(DefaultNotInteger)` where `setup_defaults` accepts it and sets `@active` to `nil`. It also requires a fresh list (not done, no filter text typed), as `call` is reached right after `new`.
- `ListPrompt.List.SetupDefaults`: validates with the corrected `Config.ValidateDefaults` from the finding below. An empty default list is refused with `DefaultNotInteger`. As written, the source passes it and sets `@active` to `nil`.
- `ListPrompt.List.Call`: because of the corrected validation, an empty default list raises before anything is drawn. As written, the source goes on to render with no active choice.
- `ListPrompt.List.Call`: requires a fresh list (not done, no filter text typed), as `call` is reached right after `new`. The block form that configures the list inside `call` is not modelled.
- The `help` setter with its memoisation (`lib/tty/prompt/list.rb:113-117`) is not modelled. The first frame shows the `:help` option when given, else `default_help`.
- The DSL setters `marker`, `per_page`, `page_help` and `enum` are not modelled. They only replace one setting. `enum` called after construction could switch numbering on with filtering on, which the model does not represent.
- `choice` with a block (lazy values) and the `Choices` class are not part of this model. A value is an opaque payload.
- `Text.Downcase`: ASCII letters only. Ruby also folds non-ASCII letters.
- `Text.ToI`: does not accept the underscores between digits that `to_i` allows.
- `Text.Inspect`: escapes only the quote, the backslash, newline, tab and carriage return. Other control and non-printable characters are kept as they are.
- `Config.ValidateEach`: defaults that are neither integers nor empty (for instance strings) are not represented. `DefaultSpec` is either missing or an integer.
- `Frames.PageSize`: assumes the paginator's default page size is 6. The paginator's source is not part of this model.
- Before `setup_defaults`, a missing first default leaves `active` at 0, which stands for `nil`.
- `FILTER_KEYS_MATCHER` is `/\A\w\Z/`. `\Z` also matches before a final newline, so a key value such as `"a\n"` is accepted and appended with its newline. The model keeps this behaviour as written.

## Findings

| source | as written | input that shows it | evidently intended | confidence | as-written member | corrected member |
|---|---|---|---|---|---|---|
| lib/tty/prompt/list.rb:268-279 | `validate_defaults` checks each element of `@default`; an empty list has none to check, so it passes and `setup_defaults` sets `@active` to `nil` | `menu.default` called with no arguments inside the `call` block, then up, down or tab (`keyup`/`keydown` do arithmetic on `nil`, lines 209-220), or enter, return or space (the final `render_question` indexes `choices[nil - 1]`, lines 203 and 364); other keys return early or set `@active` | no defaults should be refused like a missing default ("default index must be an integer in range") | medium, not executed | Config.EmptyDefaultsPassAsWritten | Config.ValidateDefaults |
