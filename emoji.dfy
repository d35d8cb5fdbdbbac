/** The emoji symbol provider of the insert-symbol dialog
    (insert_symbol-plugin-emoji.tsx): it turns the emoji database into symbol
    characters, filters them by a search text and by category, lists the
    group names and picks the alias recorded as the emoji hint.

    The database (`emojis()`, `emojiCategories()`) is passed in as a sequence.
    JavaScript's `string | undefined` is an `Option<string>`.
 */
module EmojiSymbols {

  datatype Option<T> = None | Some(value: T)

  datatype Emoji = Emoji(
    emoji: string,
    aliases: seq<string>,
    category: string,
    hasMarkdownRepresentation: bool,
    description: string)

  /** A symbol as the dialog shows it; `aliases` is optional in the interface. */
  datatype SymbolCharacter = SymbolCharacter(
    name: string,
    value: string,
    aliases: Option<seq<string>>,
    description: string)

  /** kCategoryAll */
  const CategoryAll: string := "All"

  // ---------------------------------------------------------------------------
  // String.prototype.includes and Array.prototype.find

  /** `sub` occurs in `s` starting at index `i`. */
  predicate OccursAt(s: string, sub: string, i: int)
  {
    0 <= i && i + |sub| <= |s| && s[i..i + |sub|] == sub
  }

  /** `s.includes(sub)`: every string includes "", and nothing includes a
      longer string. */
  function Includes(s: string, sub: string): (r: bool)
    ensures sub == [] ==> r
    ensures r ==> |sub| <= |s|
    decreases |s|
  {
    if |sub| <= |s| && s[..|sub|] == sub then true
    else if |s| == 0 then false
    else Includes(s[1..], sub)
  }

  lemma {:induction false} IncludesIff(s: string, sub: string)
    ensures Includes(s, sub) <==> exists i :: OccursAt(s, sub, i)
    decreases |s|
  {
    if |sub| <= |s| && s[..|sub|] == sub {
      assert OccursAt(s, sub, 0);
    } else if |s| == 0 {
      assert forall i :: !OccursAt(s, sub, i);
    } else {
      assert Includes(s, sub) == Includes(s[1..], sub);
      IncludesIff(s[1..], sub);
      if Includes(s[1..], sub) {
        var i :| OccursAt(s[1..], sub, i);
        assert s[i + 1..i + 1 + |sub|] == s[1..][i..i + |sub|];
        assert OccursAt(s, sub, i + 1);
      } else {
        forall i | OccursAt(s, sub, i) ensures OccursAt(s[1..], sub, i - 1) {
          assert i != 0;
          assert s[1..][i - 1..i - 1 + |sub|] == s[i..i + |sub|];
        }
      }
    }
  }

  /** Index of the first element of `xs[k..]` that includes `term`. */
  function FindIndexFrom(xs: seq<string>, term: string, k: nat): (r: Option<nat>)
    requires k <= |xs|
    ensures r.Some? ==> k <= r.value < |xs| && Includes(xs[r.value], term)
    ensures r.Some? ==> forall j :: k <= j < r.value ==> !Includes(xs[j], term)
    ensures r.None? ==> forall j :: k <= j < |xs| ==> !Includes(xs[j], term)
    decreases |xs| - k
  {
    if k == |xs| then None
    else if Includes(xs[k], term) then Some(k)
    else FindIndexFrom(xs, term, k + 1)
  }

  /** `xs.find(x => x.includes(term))`: defined iff some element includes the
      term, and then the first such element. */
  function Find(xs: seq<string>, term: string): (r: Option<string>)
    ensures r.Some? <==> exists j :: 0 <= j < |xs| && Includes(xs[j], term)
    ensures r.Some? ==> exists i :: 0 <= i < |xs| && xs[i] == r.value && Includes(xs[i], term)
                                    && forall j :: 0 <= j < i ==> !Includes(xs[j], term)
  {
    match FindIndexFrom(xs, term, 0)
    case Some(i) => Some(xs[i])
    case None => None
  }

  /** JavaScript truthiness of a `string | undefined`: "" is falsy. */
  predicate Truthy(s: Option<string>)
  {
    s.Some? && s.value != ""
  }

  /** `aliases[0]`, undefined for an empty list. */
  function FirstAlias(aliases: seq<string>): Option<string>
  {
    if |aliases| > 0 then Some(aliases[0]) else None
  }

  /** Template-literal text of a `string | undefined`. */
  function TemplateText(s: Option<string>): string
  {
    match s
    case Some(v) => v
    case None => "undefined"
  }

  // ---------------------------------------------------------------------------
  // filterSymbols

  /** The callback of `filterSymbols`: the name includes the text, or `find`
      returns a truthy alias. A symbol is kept iff its name or at least one of
      its aliases includes the filter text; a symbol without aliases only by
      its name. The falsy-alias test never loses a symbol: an alias "" only
      matches an empty filter text, which every name includes. */
  predicate Keep(filterText: string, symbol: SymbolCharacter)
    ensures Keep(filterText, symbol) <==>
              Includes(symbol.name, filterText)
              || (symbol.aliases.Some? &&
                  exists j :: 0 <= j < |symbol.aliases.value| && Includes(symbol.aliases.value[j], filterText))
    ensures symbol.aliases.None? || symbol.aliases == Some([]) ==>
              (Keep(filterText, symbol) <==> Includes(symbol.name, filterText))
  {
    Includes(symbol.name, filterText)
    || (symbol.aliases.Some? && Truthy(Find(symbol.aliases.value, filterText)))
  }

  /** `sub` is `s` with some elements dropped, the rest in their order. */
  predicate IsSubsequence<T(==)>(sub: seq<T>, s: seq<T>)
    decreases |s|
  {
    sub == [] ||
    (s != [] && ((sub[0] == s[0] && IsSubsequence(sub[1..], s[1..])) || IsSubsequence(sub, s[1..])))
  }

  /** `filterSymbols(filterText, symbols)` */
  function FilterSymbols(filterText: string, symbols: seq<SymbolCharacter>): (r: seq<SymbolCharacter>)
    ensures IsSubsequence(r, symbols)
    ensures forall x :: x in r <==> x in symbols && Keep(filterText, x)
    ensures |r| <= |symbols|
  {
    if symbols == [] then []
    else
      var rest := FilterSymbols(filterText, symbols[1..]);
      if Keep(filterText, symbols[0]) then [symbols[0]] + rest else rest
  }

  /** Filtering keeps a list whose every symbol passes the filter unchanged. */
  lemma {:induction false} FilterKeepsAllPassing(filterText: string, symbols: seq<SymbolCharacter>)
    requires forall i :: 0 <= i < |symbols| ==> Keep(filterText, symbols[i])
    ensures FilterSymbols(filterText, symbols) == symbols
  {
    if symbols != [] {
      FilterKeepsAllPassing(filterText, symbols[1..]);
      assert [symbols[0]] + symbols[1..] == symbols;
    }
  }

  /** Filtering the filtered list again with the same text changes nothing. */
  lemma FilterIdempotent(filterText: string, symbols: seq<SymbolCharacter>)
    ensures FilterSymbols(filterText, FilterSymbols(filterText, symbols)) == FilterSymbols(filterText, symbols)
  {
    var r := FilterSymbols(filterText, symbols);
    assert forall i :: 0 <= i < |r| ==> r[i] in r;
    FilterKeepsAllPassing(filterText, r);
  }

  /** An empty filter text keeps every symbol. */
  lemma FilterEmptyTextKeepsAll(symbols: seq<SymbolCharacter>)
    ensures FilterSymbols("", symbols) == symbols
  {
    assert forall i :: 0 <= i < |symbols| ==> Keep("", symbols[i]);
    FilterKeepsAllPassing("", symbols);
  }

  /** Filtering works symbol by symbol: it distributes over concatenation. */
  lemma {:induction false} FilterConcat(filterText: string, a: seq<SymbolCharacter>, b: seq<SymbolCharacter>)
    ensures FilterSymbols(filterText, a + b) == FilterSymbols(filterText, a) + FilterSymbols(filterText, b)
  {
    if a == [] {
      assert a + b == b;
    } else {
      assert (a + b)[1..] == a[1..] + b;
      FilterConcat(filterText, a[1..], b);
    }
  }

  // ---------------------------------------------------------------------------
  // symbolForEmoji and the emoji hint

  /** `symbolForEmoji(emoji)` */
  function SymbolForEmoji(e: Emoji): (r: SymbolCharacter)
    ensures r.value == e.emoji && r.aliases == Some(e.aliases) && r.description == e.description
    ensures e.hasMarkdownRepresentation && |e.aliases| > 0 ==> r.name == ":" + e.aliases[0] + ":"
    ensures e.hasMarkdownRepresentation && |e.aliases| == 0 ==> r.name == ":undefined:"
    ensures !e.hasMarkdownRepresentation ==> r.name == e.emoji
  {
    SymbolCharacter(
      if e.hasMarkdownRepresentation then ":" + TemplateText(FirstAlias(e.aliases)) + ":" else e.emoji,
      e.emoji,
      Some(e.aliases),
      e.description)
  }

  /** An emoji's symbol is found by filtering for any text one of its aliases
      includes, and, when it has no markdown form, for any text its glyph
      includes. */
  lemma SymbolFoundByAliasOrGlyph(e: Emoji, filterText: string)
    requires (exists j :: 0 <= j < |e.aliases| && Includes(e.aliases[j], filterText))
             || (!e.hasMarkdownRepresentation && Includes(e.emoji, filterText))
    ensures Keep(filterText, SymbolForEmoji(e))
  {
  }

  /** The alias written as the emoji hint: the first alias including the
      search term, or `aliases[0]` when there is none or it is "". The hint is
      undefined only for an emoji without aliases; otherwise it is one of
      them, the first one that includes the term when that is not "", and
      `aliases[0]` when no alias includes the term. */
  function EmojiHint(aliases: seq<string>, searchTerm: string): (r: Option<string>)
    ensures r.None? <==> |aliases| == 0
    ensures r.Some? ==> exists i :: 0 <= i < |aliases| && aliases[i] == r.value
    ensures (forall j :: 0 <= j < |aliases| ==> !Includes(aliases[j], searchTerm)) ==>
              r == FirstAlias(aliases)
    ensures forall i ::
              (0 <= i < |aliases| && Includes(aliases[i], searchTerm) && aliases[i] != ""
               && forall j :: 0 <= j < i ==> !Includes(aliases[j], searchTerm))
              ==> r == Some(aliases[i])
  {
    var best := Find(aliases, searchTerm);
    if Truthy(best) then best else FirstAlias(aliases)
  }

  /** For a search term that some alias includes, the hint includes the term. */
  lemma EmojiHintMatchesTerm(aliases: seq<string>, searchTerm: string)
    requires exists j :: 0 <= j < |aliases| && Includes(aliases[j], searchTerm)
    ensures EmojiHint(aliases, searchTerm).Some?
    ensures Includes(EmojiHint(aliases, searchTerm).value, searchTerm)
  {
    var f := FindIndexFrom(aliases, searchTerm, 0);
    assert f.Some?;
  }

  /** An empty search term gives `aliases[0]`. */
  lemma EmojiHintEmptyTerm(aliases: seq<string>)
    ensures EmojiHint(aliases, "") == FirstAlias(aliases)
  {
  }

  // ---------------------------------------------------------------------------
  // getSymbols and symbolGroupNames

  /** The emojis whose category is `category`, in database order, each as
      many times as the database holds it. */
  function InCategory(emojis: seq<Emoji>, category: string): (r: seq<Emoji>)
    ensures IsSubsequence(r, emojis)
    ensures forall e :: e in r <==> e in emojis && e.category == category
    ensures forall e :: multiset(r)[e] == if e.category == category then multiset(emojis)[e] else 0
  {
    if emojis == [] then []
    else
      assert emojis == [emojis[0]] + emojis[1..];
      var rest := InCategory(emojis[1..], category);
      if emojis[0].category == category then [emojis[0]] + rest else rest
  }

  /** Category selection decides emoji by emoji: it distributes over
      concatenation. */
  lemma {:induction false} InCategoryConcat(a: seq<Emoji>, b: seq<Emoji>, category: string)
    ensures InCategory(a + b, category) == InCategory(a, category) + InCategory(b, category)
  {
    if a == [] {
      assert a + b == b;
    } else {
      assert (a + b)[1..] == a[1..] + b;
      InCategoryConcat(a[1..], b, category);
    }
  }

  /** `emojis.map(symbolForEmoji)` */
  function SymbolsFor(emojis: seq<Emoji>): (r: seq<SymbolCharacter>)
    ensures |r| == |emojis|
    ensures forall i :: 0 <= i < |emojis| ==> r[i] == SymbolForEmoji(emojis[i])
  {
    seq(|emojis|, i requires 0 <= i < |emojis| => SymbolForEmoji(emojis[i]))
  }

  /** `getSymbols(groupName)`; `None` is `undefined`. */
  function GetSymbols(emojis: seq<Emoji>, groupName: Option<string>): (r: seq<SymbolCharacter>)
    ensures groupName == None || groupName == Some(CategoryAll) ==>
              |r| == |emojis| && forall i :: 0 <= i < |emojis| ==> r[i] == SymbolForEmoji(emojis[i])
    ensures groupName.Some? && groupName.value != CategoryAll ==>
              |r| == |InCategory(emojis, groupName.value)|
              && (forall i :: 0 <= i < |r| ==> r[i] == SymbolForEmoji(InCategory(emojis, groupName.value)[i]))
    ensures groupName.Some? && groupName.value != CategoryAll ==>
              (forall s :: s in r ==> exists e :: e in emojis && e.category == groupName.value && s == SymbolForEmoji(e))
              && (forall e :: e in emojis && e.category == groupName.value ==> SymbolForEmoji(e) in r)
  {
    if groupName == Some(CategoryAll) || groupName == None then SymbolsFor(emojis)
    else
      var selected := InCategory(emojis, groupName.value);
      var r := SymbolsFor(selected);
      assert forall e :: e in selected ==> SymbolForEmoji(e) in r by {
        forall e | e in selected ensures SymbolForEmoji(e) in r {
          var i :| 0 <= i < |selected| && selected[i] == e;
          assert r[i] == SymbolForEmoji(e);
        }
      }
      r
  }

  /** Mapping keeps the subsequence relation. */
  lemma {:induction false} SymbolsForSubsequence(sub: seq<Emoji>, s: seq<Emoji>)
    requires IsSubsequence(sub, s)
    ensures IsSubsequence(SymbolsFor(sub), SymbolsFor(s))
    decreases |s|
  {
    if sub != [] {
      assert s != [];
      assert SymbolsFor(s)[1..] == SymbolsFor(s[1..]);
      if sub[0] == s[0] && IsSubsequence(sub[1..], s[1..]) {
        assert SymbolsFor(sub)[1..] == SymbolsFor(sub[1..]);
        SymbolsForSubsequence(sub[1..], s[1..]);
      } else {
        SymbolsForSubsequence(sub, s[1..]);
      }
    }
  }

  /** A category's symbols appear among all symbols, in the same order. */
  lemma GroupIsSubsequenceOfAll(emojis: seq<Emoji>, groupName: string)
    ensures IsSubsequence(GetSymbols(emojis, Some(groupName)), GetSymbols(emojis, None))
  {
    if groupName == CategoryAll {
      SubsequenceReflexive(SymbolsFor(emojis));
    } else {
      SymbolsForSubsequence(InCategory(emojis, groupName), emojis);
    }
  }

  lemma {:induction false} SubsequenceReflexive<T>(s: seq<T>)
    ensures IsSubsequence(s, s)
  {
    if s != [] {
      SubsequenceReflexive(s[1..]);
    }
  }

  /** `symbolGroupNames()` */
  function SymbolGroupNames(categories: seq<string>): (r: seq<string>)
    ensures |r| == |categories| + 1
    ensures r[0] == CategoryAll && r[1..] == categories
  {
    [CategoryAll] + categories
  }

  /** The number of symbols listed over the groups `groups`, one after another. */
  function GroupTotal(emojis: seq<Emoji>, groups: seq<string>): nat
  {
    if groups == [] then 0
    else |GetSymbols(emojis, Some(groups[0]))| + GroupTotal(emojis, groups[1..])
  }

  lemma {:induction false} GroupTotalCons(e: Emoji, rest: seq<Emoji>, groups: seq<string>)
    requires CategoryAll !in groups
    ensures GroupTotal([e] + rest, groups) == GroupTotal(rest, groups) + multiset(groups)[e.category]
  {
    if groups != [] {
      assert ([e] + rest)[1..] == rest;
      assert groups == [groups[0]] + groups[1..];
      GroupTotalCons(e, rest, groups[1..]);
    }
  }

  /** When every emoji's category appears exactly once in the category list,
      the category groups of `symbolGroupNames()` list as many symbols in all
      as the group "All" does. */
  lemma {:induction false} CategoryGroupsPartitionAll(emojis: seq<Emoji>, categories: seq<string>)
    requires CategoryAll !in categories
    requires forall i :: 0 <= i < |emojis| ==> multiset(categories)[emojis[i].category] == 1
    ensures GroupTotal(emojis, SymbolGroupNames(categories)[1..])
            == |GetSymbols(emojis, Some(SymbolGroupNames(categories)[0]))|
  {
    if emojis == [] {
      TotalOverNoEmojis(categories);
    } else {
      CategoryGroupsPartitionAll(emojis[1..], categories);
      assert [emojis[0]] + emojis[1..] == emojis;
      GroupTotalCons(emojis[0], emojis[1..], categories);
    }
  }

  lemma {:induction false} TotalOverNoEmojis(groups: seq<string>)
    ensures GroupTotal([], groups) == 0
  {
    if groups != [] {
      TotalOverNoEmojis(groups[1..]);
    }
  }
}
