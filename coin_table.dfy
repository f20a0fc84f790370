/**
 * The table's view model: the coins sorted by the selected column with a
 * case-insensitive comparator (`sortedCoins`), then narrowed to those whose
 * name contains the search term (`filteredCoins`).
 */
module CoinTable {
  import opened JsValue
  import opened JsString
  import opened JsArray

  /** The sort direction: `order` is either 'asc' or 'desc'. */
  datatype Direction = Asc | Desc

  /**
   * Whether `c[field]?.toLowerCase()` can be evaluated: the property is
   * missing, null, or a string. Any other value has no `toLowerCase` method.
   */
  predicate Keyable(c: Coin, field: string)
  {
    field !in c || c[field].Null? || c[field].Str?
  }

  /** `c[field]?.toLowerCase() || ''`: the lower-cased string, or '' when missing. */
  function SortKey(c: Coin, field: string): string
  {
    if field in c && c[field].Str? then Lower(c[field].s) else ""
  }

  /**
   * The comparator handed to `sort`: -1, 0 or 1 by comparing the lower-cased
   * keys, with 'desc' flipping the sign.
   */
  function Compare(a: Coin, b: Coin, field: string, order: Direction): (r: int)
    ensures r == -1 || r == 0 || r == 1
    ensures r == 0 <==> SortKey(a, field) == SortKey(b, field)
    ensures r < 0 <==>
      if order == Asc then Less(SortKey(a, field), SortKey(b, field))
      else Less(SortKey(b, field), SortKey(a, field))
  {
    var ka := SortKey(a, field);
    var kb := SortKey(b, field);
    LessIrreflexive(ka);
    LessTrichotomy(ka, kb);
    LessAsymmetric(ka, kb);
    if Less(ka, kb) then (if order == Asc then -1 else 1)
    else if Less(kb, ka) then (if order == Asc then 1 else -1)
    else 0
  }

  /** The 'desc' comparator is the negation of the 'asc' one. */
  lemma CompareDescNegatesAsc(a: Coin, b: Coin, field: string)
    ensures Compare(a, b, field, Desc) == -Compare(a, b, field, Asc)
  {
  }

  /** Swapping the arguments negates the comparator. */
  lemma CompareFlip(a: Coin, b: Coin, field: string, order: Direction)
    ensures Compare(b, a, field, order) == -Compare(a, b, field, order)
  {
    LessAsymmetric(SortKey(a, field), SortKey(b, field));
  }

  /** "Compares no greater than" is transitive. */
  lemma CompareLeTransitive(a: Coin, b: Coin, c: Coin, field: string, order: Direction)
    requires Compare(a, b, field, order) <= 0 && Compare(b, c, field, order) <= 0
    ensures Compare(a, c, field, order) <= 0
  {
    var ka, kb, kc := SortKey(a, field), SortKey(b, field), SortKey(c, field);
    if order == Asc {
      if Less(ka, kb) && Less(kb, kc) {
        LessTransitive(ka, kb, kc);
      }
    } else {
      if Less(kb, ka) && Less(kc, kb) {
        LessTransitive(kc, kb, ka);
      }
    }
  }

  /**
   * A coin whose sort field is missing or null compares as '': under 'asc' it
   * never comes after another coin, and strictly before any with a non-empty key.
   */
  lemma MissingFieldSortsFirst(a: Coin, b: Coin, field: string)
    requires field !in a || a[field].Null?
    ensures Compare(a, b, field, Asc) <= 0
    ensures SortKey(b, field) != "" ==> Compare(a, b, field, Asc) == -1
  {
    EmptyIsLeast(SortKey(b, field));
  }

  /** The comparator as the function value handed to `sort`. */
  function Comparator(field: string, order: Direction): (Coin, Coin) -> int
  {
    (a, b) => Compare(a, b, field, order)
  }

  /** The table's comparator is consistent, as `sort` requires. */
  lemma ComparatorConsistent(field: string, order: Direction)
    ensures Consistent(Comparator(field, order))
  {
    var cmp := Comparator(field, order);
    forall a, b
      ensures cmp(b, a) == -cmp(a, b)
    {
      CompareFlip(a, b, field, order);
    }
    forall a, b, c | cmp(a, b) <= 0 && cmp(b, c) <= 0
      ensures cmp(a, c) <= 0
    {
      CompareLeTransitive(a, b, c, field, order);
    }
  }

  /** `coins || []`: a missing list reads as empty. */
  function Source(coins: Option<seq<Coin>>): seq<Coin>
  {
    if coins.Some? then coins.value else []
  }

  /** Some coin of `s` has a sort field that is neither missing, null nor a string. */
  predicate SomeUnkeyable(s: seq<Coin>, field: string)
  {
    exists c :: c in s && !Keyable(c, field)
  }

  /** Whether some coin is unkeyable depends only on which coins there are. */
  lemma SomeUnkeyablePermutation(a: seq<Coin>, b: seq<Coin>, field: string)
    requires multiset(a) == multiset(b)
    ensures SomeUnkeyable(a, field) <==> SomeUnkeyable(b, field)
  {
    SameElements(a, b);
  }

  /**
   * `sortedCoins`: a sorted copy of `coins || []`. With two or more coins,
   * every coin's key is computed in some comparison, so a coin whose sort
   * field holds a non-string value makes the comparator throw.
   */
  function SortedCoins(coins: Option<seq<Coin>>, orderBy: string, order: Direction): Result<seq<Coin>>
  {
    var src := Source(coins);
    if |src| >= 2 && SomeUnkeyable(src, orderBy) then Err(TypeError)
    else Ok(SortWith(src, Comparator(orderBy, order)))
  }

  /** `sortedCoins` throws exactly when the comparator meets an unkeyable coin. */
  lemma SortedCoinsThrows(coins: Option<seq<Coin>>, orderBy: string, order: Direction)
    ensures SortedCoins(coins, orderBy, order).Err? <==>
      |Source(coins)| >= 2 && exists c :: c in Source(coins) && !Keyable(c, orderBy)
  {
  }

  /** Sorting with the table's comparator yields a sequence ordered by it. */
  lemma ComparatorSorts(s: seq<Coin>, field: string, order: Direction)
    ensures SortedWith(SortWith(s, Comparator(field, order)), Comparator(field, order))
  {
    ComparatorConsistent(field, order);
    SortWithSorted(s, Comparator(field, order));
  }

  /** Sorting with the table's comparator keeps coins with equal keys in their order. */
  lemma ComparatorStable(s: seq<Coin>, field: string, order: Direction)
    ensures forall y :: EquivFilter(SortWith(s, Comparator(field, order)), Comparator(field, order), y)
                     == EquivFilter(s, Comparator(field, order), y)
  {
    ComparatorConsistent(field, order);
    forall y {
      SortWithStable(s, Comparator(field, order), y);
    }
  }

  /**
   * When `sortedCoins` does not throw, it is a permutation of the input,
   * ordered by the comparator, and stable: coins that compare equal keep
   * their relative order.
   */
  lemma SortedCoinsCorrect(coins: Option<seq<Coin>>, orderBy: string, order: Direction)
    requires SortedCoins(coins, orderBy, order).Ok?
    ensures var r := SortedCoins(coins, orderBy, order).value;
      var cmp := Comparator(orderBy, order);
      && multiset(r) == multiset(Source(coins))
      && SortedWith(r, cmp)
      && forall y :: EquivFilter(r, cmp, y) == EquivFilter(Source(coins), cmp, y)
  {
    var src := Source(coins);
    assert SortedCoins(coins, orderBy, order).value == SortWith(src, Comparator(orderBy, order));
    ComparatorSorts(src, orderBy, order);
    ComparatorStable(src, orderBy, order);
  }

  /** Coins compare equal exactly when their lower-cased sort keys are equal. */
  lemma ComparatorEquivIsSameKey(a: Coin, b: Coin, field: string, order: Direction)
    ensures Comparator(field, order)(a, b) == 0 <==> SortKey(a, field) == SortKey(b, field)
  {
  }

  /** Sorting the sorted list again with the same column and direction changes nothing. */
  lemma SortedCoinsIdempotent(coins: Option<seq<Coin>>, orderBy: string, order: Direction)
    requires SortedCoins(coins, orderBy, order).Ok?
    ensures SortedCoins(Some(SortedCoins(coins, orderBy, order).value), orderBy, order)
         == SortedCoins(coins, orderBy, order)
  {
    var src := Source(coins);
    var cmp := Comparator(orderBy, order);
    var r := SortWith(src, cmp);
    assert SortedCoins(coins, orderBy, order) == Ok(r);
    ComparatorSorts(src, orderBy, order);
    SortedIsFixedPoint(r, cmp);
    SomeUnkeyablePermutation(r, src, orderBy);
    assert Source(Some(r)) == r;
    assert SortedCoins(Some(r), orderBy, order) == Ok(SortWith(r, cmp));
  }

  /** `coin.name.toLowerCase()` would throw: the name is truthy but not a string. */
  predicate NameThrows(c: Coin)
  {
    "name" in c && Truthy(c["name"]) && !c["name"].Str?
  }

  /** The filter's test: a non-empty string name whose lower case contains the lower-cased search. */
  predicate Matches(c: Coin, search: string)
  {
    "name" in c && c["name"].Str? && c["name"].s != ""
    && Includes(Lower(c["name"].s), Lower(search))
  }

  /** The filter's callback as a function value. */
  function MatchesSearch(search: string): Coin -> bool
  {
    c => Matches(c, search)
  }

  /**
   * `filteredCoins`: throws if some coin has a truthy non-string name (`filter`
   * visits every coin); otherwise keeps the matching coins in order.
   */
  function FilteredCoins(sorted: seq<Coin>, search: string): Result<seq<Coin>>
  {
    if exists c :: c in sorted && NameThrows(c) then Err(TypeError)
    else Ok(FilterWith(sorted, MatchesSearch(search)))
  }

  /** `filteredCoins` throws exactly when some coin has a truthy non-string name. */
  lemma FilteredCoinsThrows(sorted: seq<Coin>, search: string)
    ensures FilteredCoins(sorted, search).Err? <==> exists c :: c in sorted && NameThrows(c)
  {
  }

  /**
   * When `filteredCoins` does not throw, each kept coin matches, each matching
   * coin is kept as often as it occurs, and the kept coins are in their sorted
   * order.
   */
  lemma FilteredCoinsCorrect(sorted: seq<Coin>, search: string)
    requires FilteredCoins(sorted, search).Ok?
    ensures var r := FilteredCoins(sorted, search).value;
      && |r| <= |sorted|
      && (forall c :: c in r ==> Matches(c, search))
      && (forall c :: multiset(r)[c] == if Matches(c, search) then multiset(sorted)[c] else 0)
      && IsSubsequence(r, sorted)
  {
    var keep := MatchesSearch(search);
    assert FilteredCoins(sorted, search).value == FilterWith(sorted, keep);
    FilterWithSound(sorted, keep);
    FilterWithCount(sorted, keep);
    FilterWithOrdered(sorted, keep);
  }

  /**
   * With an empty search the filter still drops coins whose name is missing,
   * null or empty, and keeps every coin with a non-empty string name.
   */
  lemma EmptySearchKeepsNamed(c: Coin)
    ensures Matches(c, "") <==> "name" in c && c["name"].Str? && c["name"].s != ""
  {
    if "name" in c && c["name"].Str? {
      IncludesEmpty(Lower(c["name"].s));
    }
  }

  /** The rows the table renders: sort, then filter. */
  function DeriveView(coins: Option<seq<Coin>>, search: string, orderBy: string, order: Direction): Result<seq<Coin>>
  {
    match SortedCoins(coins, orderBy, order)
    case Err(e) => Err(e)
    case Ok(sorted) => FilteredCoins(sorted, search)
  }

  /** The rows throw exactly when sorting or filtering meets a value of the wrong type. */
  lemma DeriveViewThrows(coins: Option<seq<Coin>>, search: string, orderBy: string, order: Direction)
    ensures DeriveView(coins, search, orderBy, order).Err? <==>
      || (|Source(coins)| >= 2 && exists c :: c in Source(coins) && !Keyable(c, orderBy))
      || (exists c :: c in Source(coins) && NameThrows(c))
  {
    var src := Source(coins);
    if !(|src| >= 2 && SomeUnkeyable(src, orderBy)) {
      var sorted := SortWith(src, Comparator(orderBy, order));
      assert DeriveView(coins, search, orderBy, order) == FilteredCoins(sorted, search);
      SameElements(sorted, src);
    }
  }

  /**
   * When the rows are rendered, each row is a coin of the input that matches
   * the search, every matching coin appears as often as in the input, there
   * are never more rows than coins, and the rows are in comparator order.
   */
  lemma DeriveViewRows(coins: Option<seq<Coin>>, search: string, orderBy: string, order: Direction)
    requires DeriveView(coins, search, orderBy, order).Ok?
    ensures var v := DeriveView(coins, search, orderBy, order).value;
      && |v| <= |Source(coins)|
      && (forall c :: c in v ==> c in Source(coins) && Matches(c, search))
      && (forall c :: multiset(v)[c] == if Matches(c, search) then multiset(Source(coins))[c] else 0)
      && SortedWith(v, Comparator(orderBy, order))
  {
    var src := Source(coins);
    var sorted := SortWith(src, Comparator(orderBy, order));
    assert DeriveView(coins, search, orderBy, order) == FilteredCoins(sorted, search);
    SameElements(sorted, src);
    FilteredCoinsCorrect(sorted, search);
    ComparatorSorts(src, orderBy, order);
    SubsequenceSorted(FilteredCoins(sorted, search).value, sorted, Comparator(orderBy, order));
  }
}
