/** The choice collection and its filtered view: `List#choices` called
    without arguments. */
module Choices {
  import opened Common
  import opened Text

  /** One selectable entry: the text shown and the payload returned. */
  datatype Choice<V> = Choice(name: string, value: V)

  /** `@filter.to_s`: no filter reads as the empty string. */
  function FilterText(filter: Option<string>): string {
    filter.GetOr("")
  }

  /** The case-insensitive match the filter applies to one choice. */
  predicate Matches<V>(c: Choice<V>, f: string) {
    Contains(Downcase(c.name), Downcase(f))
  }

  /** `@choices.select { |c| c.name.downcase.include?(f.downcase) }`. */
  function Select<V>(cs: seq<Choice<V>>, f: string): (r: seq<Choice<V>>)
    ensures |r| <= |cs|
  {
    if cs == [] then []
    else if Matches(cs[0], f) then [cs[0]] + Select(cs[1..], f)
    else Select(cs[1..], f)
  }

  /** The view every key handler and renderer works on: the whole collection
      while the filter is off or empty, otherwise the matching choices. */
  function Filtered<V>(cs: seq<Choice<V>>, filter: Option<string>): (r: seq<Choice<V>>)
    ensures |r| <= |cs|
  {
    if FilterText(filter) == "" then cs else Select(cs, filter.value)
  }

  /** `a` can be obtained from `b` by deleting elements: it keeps their order. */
  ghost predicate IsSubsequence<T>(a: seq<T>, b: seq<T>)
    decreases |b|
  {
    if a == [] then true
    else if b == [] then false
    else (a[0] == b[0] && IsSubsequence(a[1..], b[1..])) || IsSubsequence(a, b[1..])
  }

  lemma {:induction false} SubsequenceLength<T>(a: seq<T>, b: seq<T>)
    requires IsSubsequence(a, b)
    ensures |a| <= |b|
    decreases |b|
  {
    if a != [] {
      if a[0] == b[0] && IsSubsequence(a[1..], b[1..]) {
        SubsequenceLength(a[1..], b[1..]);
      } else {
        SubsequenceLength(a, b[1..]);
      }
    }
  }

  lemma {:induction false} SubsequenceReflexive<T>(a: seq<T>)
    ensures IsSubsequence(a, a)
  {
    if a != [] {
      SubsequenceReflexive(a[1..]);
    }
  }

  lemma SubsequenceSkip<T>(a: seq<T>, x: T, b: seq<T>)
    requires IsSubsequence(a, b)
    ensures IsSubsequence(a, [x] + b)
  {
    assert ([x] + b)[1..] == b;
  }

  lemma {:induction false} SubsequenceMembers<T>(a: seq<T>, b: seq<T>, x: T)
    requires IsSubsequence(a, b) && x in a
    ensures x in b
    decreases |b|
  {
    if a[0] == b[0] && IsSubsequence(a[1..], b[1..]) {
      if x != a[0] {
        SubsequenceMembers(a[1..], b[1..], x);
      }
    } else {
      SubsequenceMembers(a, b[1..], x);
    }
  }

  /** The filtered view keeps the collection's order. */
  lemma {:induction false} SelectIsSubsequence<V>(cs: seq<Choice<V>>, f: string)
    ensures IsSubsequence(Select(cs, f), cs)
  {
    if cs != [] {
      SelectIsSubsequence(cs[1..], f);
      if Matches(cs[0], f) {
        assert ([cs[0]] + Select(cs[1..], f))[1..] == Select(cs[1..], f);
      } else {
        SubsequenceSkip(Select(cs[1..], f), cs[0], cs[1..]);
        assert [cs[0]] + cs[1..] == cs;
      }
    }
  }

  /** The filtered view holds exactly the choices that match. */
  lemma {:induction false} SelectMembers<V>(cs: seq<Choice<V>>, f: string, c: Choice<V>)
    ensures c in Select(cs, f) <==> c in cs && Matches(c, f)
  {
    if cs != [] {
      SelectMembers(cs[1..], f, c);
      assert cs == [cs[0]] + cs[1..];
    }
  }

  /** With the empty pattern every choice matches, so the shortcut for an
      empty filter shows what selecting with it would. */
  lemma {:induction false} SelectEmptyPattern<V>(cs: seq<Choice<V>>)
    ensures Select(cs, "") == cs
  {
    if cs != [] {
      assert IsPrefix(Downcase(""), Downcase(cs[0].name));
      SelectEmptyPattern(cs[1..]);
      assert cs == [cs[0]] + cs[1..];
    }
  }

  lemma MatchesDropSuffix<V>(c: Choice<V>, f: string, ext: string)
    requires Matches(c, f + ext)
    ensures Matches(c, f)
  {
    DowncaseAppend(f, ext);
    ContainsDropSuffix(Downcase(c.name), Downcase(f), Downcase(ext));
  }

  /** Lengthening the pattern only removes choices from the selection. */
  lemma {:induction false} SelectNarrows<V>(cs: seq<Choice<V>>, f: string, ext: string)
    ensures IsSubsequence(Select(cs, f + ext), Select(cs, f))
  {
    if cs != [] {
      SelectNarrows(cs[1..], f, ext);
      var a, b := Select(cs[1..], f + ext), Select(cs[1..], f);
      if Matches(cs[0], f + ext) {
        MatchesDropSuffix(cs[0], f, ext);
        assert ([cs[0]] + a)[1..] == a && ([cs[0]] + b)[1..] == b;
      } else if Matches(cs[0], f) {
        SubsequenceSkip(a, cs[0], b);
      }
    }
  }

  /** The view never grows when the filter text is extended, and so never
      shrinks when characters are taken off its end. */
  lemma FilteredNarrows<V>(cs: seq<Choice<V>>, f: string, ext: string)
    ensures IsSubsequence(Filtered(cs, Some(f + ext)), Filtered(cs, Some(f)))
    ensures |Filtered(cs, Some(f + ext))| <= |Filtered(cs, Some(f))|
  {
    if f + ext == "" {
      SubsequenceReflexive(Filtered(cs, Some(f)));
    } else if f == "" {
      assert f + ext == ext;
      SelectIsSubsequence(cs, ext);
    } else {
      SelectNarrows(cs, f, ext);
    }
    SubsequenceLength(Filtered(cs, Some(f + ext)), Filtered(cs, Some(f)));
  }

  /** Whatever the filter, the view is an order-preserving part of the collection. */
  lemma FilteredIsSubsequence<V>(cs: seq<Choice<V>>, filter: Option<string>)
    ensures IsSubsequence(Filtered(cs, filter), cs)
    ensures |Filtered(cs, filter)| <= |cs|
  {
    if FilterText(filter) == "" {
      SubsequenceReflexive(cs);
    } else {
      SelectIsSubsequence(cs, filter.value);
    }
    SubsequenceLength(Filtered(cs, filter), cs);
  }

  /** A choice is in the view exactly when it is in the collection and
      the filter, when one is typed, matches it. */
  lemma FilteredMembers<V>(cs: seq<Choice<V>>, filter: Option<string>, c: Choice<V>)
    ensures c in Filtered(cs, filter) <==> c in cs && (FilterText(filter) == "" || Matches(c, FilterText(filter)))
  {
    if FilterText(filter) != "" {
      SelectMembers(cs, filter.value, c);
    }
  }
}
