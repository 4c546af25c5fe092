/** The List prompt's configuration: the options hash given to
    `List.new`, the settings derived from it, and the eager checks that raise
    `ConfigurationError` before anything is drawn. */
module Config {
  import opened Common
  import opened Text

  /** The reasons a List prompt refuses its configuration. */
  datatype ConfigError =
    | EnumWithFilter
    | DefaultNotInteger(size: nat)
    | DefaultOutOfRange(index: int, size: nat)

  /** The valid range `(1 - size)` the default errors name. */
  function RangeText(size: nat): string {
    "(1 - " + ToDecimal(size) + ")"
  }

  /** The message `ConfigurationError` carries for each reason. */
  function Message(e: ConfigError): (m: string)
    ensures e.DefaultNotInteger? || e.DefaultOutOfRange? ==> IsPrefix("default index ", m)
  {
    match e
    case EnumWithFilter => "Enumeration can't be used with filter"
    case DefaultNotInteger(n) =>
      var m := "default index " + ("must be an integer in range " + RangeText(n));
      PrefixOfAppend("default index ", "must be an integer in range " + RangeText(n));
      m
    case DefaultOutOfRange(d, n) =>
      var m := "default index " + ("`" + IntToString(d) + "`" + (" out of range " + RangeText(n)));
      PrefixOfAppend("default index ", "`" + IntToString(d) + "`" + (" out of range " + RangeText(n)));
      m
  }

  /** Both default errors end by naming the valid range `(1 - size)`. */
  lemma MessageNamesRange(e: ConfigError)
    requires e.DefaultNotInteger? || e.DefaultOutOfRange?
    ensures IsSuffix("(1 - " + ToDecimal(e.size) + ")", Message(e))
  {
    if e.DefaultNotInteger? {
      AppendAssoc("default index ", "must be an integer in range ", RangeText(e.size));
      SuffixOfAppend("default index " + "must be an integer in range ", RangeText(e.size));
    } else {
      var quoted := "`" + IntToString(e.index) + "`";
      AppendAssoc(quoted, " out of range ", RangeText(e.size));
      AppendAssoc("default index ", quoted + " out of range ", RangeText(e.size));
      SuffixOfAppend("default index " + (quoted + " out of range "), RangeText(e.size));
    }
  }

  /** The out-of-range error quotes the offending index between backticks. */
  lemma MessageQuotesIndex(e: ConfigError)
    requires e.DefaultOutOfRange?
    ensures Contains(Message(e), "`" + IntToString(e.index) + "`")
  {
    ContainsMiddle("default index ", "`" + IntToString(e.index) + "`", " out of range " + RangeText(e.size));
  }

  datatype Outcome = Pass | Fail(error: ConfigError)

  /** A value, or the configuration error raised instead of producing it. */
  datatype Result<T> = Ok(value: T) | Err(error: ConfigError)

  /** One requested default: `Missing` stands for `nil` or a value whose
      `to_s` is empty, `Index(i)` for an integer. */
  datatype DefaultSpec = Missing | Index(index: int)

  /** The options hash. `Key` records whether a key was given at all, which
      is what the consistency check looks at; the colour options only style
      output and are not part of the model. */
  datatype Options = Options(
    prefix: Key<string>,
    enum: Key<Option<string>>,
    default: Key<DefaultSpec>,
    marker: Key<string>,
    cycle: Key<bool>,
    filter: Key<bool>,
    help: Option<string>,
    perPage: Option<int>,
    pageHelp: Option<string>)

  /** The settings a List keeps for one interaction; none of them changes
      once keys are being read. */
  datatype Settings = Settings(
    prefix: string,
    question: string,
    enum: Option<string>,
    marker: string,
    cycle: bool,
    help: Option<string>,
    perPage: Option<int>,
    pageHelp: string)

  const PAGE_HELP: string := "(Move up or down to reveal more choices)"

  /** `check_options_consistency`: giving both the `:enum` and the `:filter`
      key is refused, whatever their values. */
  function CheckOptionsConsistency(o: Options): (r: Outcome)
    ensures r.Pass? <==> !(o.enum.Present? && o.filter.Present?)
    ensures r.Fail? ==> r.error == EnumWithFilter
  {
    if o.enum.Present? && o.filter.Present? then Fail(EnumWithFilter) else Pass
  }

  /** The settings `initialize` reads from the options, falling back to the
      prompt's prefix and pointer symbol. */
  function SettingsFrom(o: Options, promptPrefix: string, pointer: string): Settings {
    Settings(
      prefix := if o.prefix.Present? then o.prefix.value else promptPrefix,
      question := "",
      enum := if o.enum.Present? then o.enum.value else None,
      marker := if o.marker.Present? then o.marker.value else pointer,
      cycle := o.cycle.Present? && o.cycle.value,
      help := o.help,
      perPage := o.perPage,
      pageHelp := o.pageHelp.GetOr(PAGE_HELP))
  }

  /** `Array[options.fetch(:default) { 1 }]`. */
  function DefaultsFrom(o: Options): seq<DefaultSpec> {
    if o.default.Present? then [o.default.value] else [Index(1)]
  }

  /** `options.fetch(:filter) { false } ? "" : nil`. */
  function FilterFrom(o: Options): Option<string> {
    if o.filter.Present? && o.filter.value then Some("") else None
  }

  /** An options hash that passes the consistency check never turns on both
      numbering and filtering. */
  lemma ConsistentOptionsExclusive(o: Options, promptPrefix: string, pointer: string)
    requires CheckOptionsConsistency(o).Pass?
    ensures !(SettingsFrom(o, promptPrefix, pointer).enum.Some? && FilterFrom(o).Some?)
  {
  }

  predicate InRange(d: DefaultSpec, size: nat) {
    d.Index? && 1 <= d.index <= size
  }

  /** The error `validate_defaults` raises for a default that is not in range. */
  function ErrorFor(d: DefaultSpec, size: nat): ConfigError {
    if d.Missing? then DefaultNotInteger(size) else DefaultOutOfRange(d.index, size)
  }

  /** `@default.first`: `nil` for an empty list or a missing first default. */
  function FirstDefault(defaults: seq<DefaultSpec>): Option<int> {
    if defaults != [] && defaults[0].Index? then Some(defaults[0].index) else None
  }

  /** `validate_defaults` as written: every default, in order, must be an
      integer in 1..size; the first one that is not raises its error. */
  function ValidateEach(defaults: seq<DefaultSpec>, size: nat): (r: Outcome)
    ensures r.Pass? <==> forall i :: 0 <= i < |defaults| ==> InRange(defaults[i], size)
    ensures r.Fail? ==>
      exists k :: 0 <= k < |defaults| && !InRange(defaults[k], size)
        && (forall j :: 0 <= j < k ==> InRange(defaults[j], size))
        && r.error == ErrorFor(defaults[k], size)
  {
    if defaults == [] then Pass
    else if !InRange(defaults[0], size) then Fail(ErrorFor(defaults[0], size))
    else
      var rest := ValidateEach(defaults[1..], size);
      assert forall i :: 1 <= i < |defaults| ==> defaults[i] == defaults[1..][i - 1];
      rest
  }

  /** As written, an empty list of defaults (`default` called with no
      arguments) passes validation and leaves no first default to make
      active. */
  lemma EmptyDefaultsPassAsWritten(size: nat)
    ensures ValidateEach([], size) == Pass
    ensures FirstDefault([]) == None
  {
  }

  /** `validate_defaults` with the empty list refused like a missing default:
      success always leaves an in-range first default to make active. */
  function ValidateDefaults(defaults: seq<DefaultSpec>, size: nat): (r: Outcome)
    ensures r.Pass? <==> |defaults| >= 1 && forall i :: 0 <= i < |defaults| ==> InRange(defaults[i], size)
    ensures r.Pass? ==> FirstDefault(defaults).Some? && 1 <= FirstDefault(defaults).value <= size
    ensures |defaults| >= 1 ==> r == ValidateEach(defaults, size)
    ensures |defaults| == 0 ==> r == Fail(DefaultNotInteger(size))
  {
    if defaults == [] then Fail(DefaultNotInteger(size)) else ValidateEach(defaults, size)
  }

  /** The two boundary cases of validation: 0 and size + 1 are refused with
      an error naming the range, every index in between is accepted. */
  lemma DefaultBoundaries(size: nat, d: int)
    ensures ValidateDefaults([Index(0)], size) == Fail(DefaultOutOfRange(0, size))
    ensures ValidateDefaults([Index(size + 1)], size) == Fail(DefaultOutOfRange(size + 1, size))
    ensures 1 <= d <= size ==> ValidateDefaults([Index(d)], size) == Pass
  {
  }
}
