/**
 * The dashboard page's component state (search term, sort column and
 * direction, edit draft, dialog flag) and the event handlers that change it
 * or dispatch to the coins slice.
 */
module HomeView {
  import opened JsValue
  import opened CryptoSlice
  import opened CoinTable
  import opened JsArray

  /**
   * The direction `handleRequestSort(property)` sets: 'desc' only when the
   * clicked column is already the sort column and sorted 'asc'.
   */
  function NextOrder(order: Direction, orderBy: string, property: string): Direction
  {
    if orderBy == property && order == Asc then Desc else Asc
  }

  /** Clicking the same column twice, starting from 'asc' on it, returns to 'asc'. */
  lemma RequestSortTwiceRestoresAsc(property: string)
    ensures NextOrder(Asc, property, property) == Desc
    ensures NextOrder(NextOrder(Asc, property, property), property, property) == Asc
  {
  }

  /** Clicking a column other than the current sort column always sorts it 'asc'. */
  lemma RequestSortNewColumnIsAsc(order: Direction, orderBy: string, property: string)
    requires orderBy != property
    ensures NextOrder(order, orderBy, property) == Asc
  {
  }

  /**
   * `{...prev, [name]: value}`: the draft with one property set. Spreading a
   * null draft contributes no properties.
   */
  function EditedDraft(prev: Option<Coin>, name: string, value: string): (r: Coin)
    ensures name in r && r[name] == Str(value)
    ensures forall k :: k != name ==> (k in r <==> prev.Some? && k in prev.value)
    ensures forall k :: k != name && k in r ==> r[k] == prev.value[k]
  {
    (if prev.Some? then prev.value else map[])[name := Str(value)]
  }

  /** The `Home` page component's state and handlers; `store` is the coins slice it dispatches to. */
  class Home {
    const store: CoinsState
    var search: string
    var selectedCoin: Option<Coin>
    var open: bool
    var editedCoin: Option<Coin>
    var order: Direction
    var orderBy: string

    /** The initial `useState` values. */
    constructor (store: CoinsState)
      ensures this.store == store
      ensures search == "" && selectedCoin == None && !open && editedCoin == None
      ensures order == Asc && orderBy == "name"
    {
      this.store := store;
      search := "";
      selectedCoin := None;
      open := false;
      editedCoin := None;
      order := Asc;
      orderBy := "name";
    }

    /**
     * The rows the table renders for the current state. When they can be
     * computed, each is a coin of the slice's list that matches the search,
     * every matching coin is rendered as often as it occurs in the list, and
     * the rows are in the order of the selected column and direction.
     */
    function Rows(): (r: Result<seq<Coin>>)
      reads this, store
      ensures r.Ok? ==> |r.value| <= |store.list|
      ensures r.Ok? ==> forall c :: c in r.value ==> c in store.list && Matches(c, search)
      ensures r.Ok? ==> forall c :: multiset(r.value)[c] == if Matches(c, search) then multiset(store.list)[c] else 0
      ensures r.Ok? ==> SortedWith(r.value, Comparator(orderBy, order))
    {
      var r := DeriveView(Some(store.list), search, orderBy, order);
      if r.Ok? then DeriveViewRows(Some(store.list), search, orderBy, order); r else r
    }

    /** `handleRefresh`: reset the slice (the refetch that follows is not modelled). */
    method Refresh()
      modifies store
      ensures store.list == [] && store.status == Idle && store.error == Null
      ensures store.Valid()
    {
      store.ResetCoins();
    }

    /** `handleSearchChange`: the search term becomes the field's value. */
    method SearchChange(value: string)
      modifies this`search
      ensures search == value
    {
      search := value;
    }

    /**
     * The successful end of `handleRowClick`: the fetched detail becomes both
     * the selected coin and the edit draft, and the dialog opens.
     */
    method RowDetailLoaded(detail: Coin)
      modifies this`selectedCoin, this`editedCoin, this`open
      ensures selectedCoin == Some(detail) && editedCoin == Some(detail) && open
    {
      selectedCoin := Some(detail);
      editedCoin := Some(detail);
      open := true;
    }

    /** `handleEditChange`: set the draft property named by the input to its value. */
    method EditChange(name: string, value: string)
      modifies this`editedCoin
      ensures editedCoin == Some(EditedDraft(old(editedCoin), name, value))
    {
      editedCoin := Some(EditedDraft(editedCoin, name, value));
    }

    /**
     * `handleEditSubmit`: with no draft nothing happens; otherwise the draft is
     * dispatched as `updateCoin` and the dialog closes.
     */
    method EditSubmit()
      modifies this`open, store
      ensures old(editedCoin).None? ==>
        open == old(open) && store.list == old(store.list)
        && store.status == old(store.status) && store.error == old(store.error)
      ensures old(editedCoin).Some? ==>
        !open && store.list == UpdatedList(old(store.list), old(store.status), old(store.error), old(editedCoin).value)
        && store.status == old(store.status) && store.error == old(store.error)
      ensures old(store.Valid()) ==> store.Valid()
    {
      if editedCoin.Some? {
        store.UpdateCoin(editedCoin.value);
        open := false;
      }
    }

    /** `handleRequestSort(property)`: toggle or reset the direction, then sort by `property`. */
    method RequestSort(property: string)
      modifies this`order, this`orderBy
      ensures order == NextOrder(old(order), old(orderBy), property)
      ensures orderBy == property
    {
      var isAsc := orderBy == property && order == Asc;
      order := if isAsc then Desc else Asc;
      orderBy := property;
    }

    /** The dialog's `onClose`: close it, keeping the draft. */
    method CloseDialog()
      modifies this`open
      ensures !open
    {
      open := false;
    }
  }
}
