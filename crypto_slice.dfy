/**
 * The `coins` state container: a record `{list, status, error}` updated in
 * place by three reducers, `setCoins`, `resetCoins` and `updateCoin`.
 */
module CryptoSlice {
  import opened JsValue

  const Idle := "idle"
  const Succeeded := "succeeded"

  /** The property names of the slice state, which `{...state}` copies. */
  const StateKeys: set<string> := {"list", "status", "error"}

  /** `coin.id === id`: the predicate that `findIndex` applies to each slot. */
  predicate IdMatches(c: Coin, id: Option<Value>)
  {
    StrictEquals(Get(c, "id"), id)
  }

  /**
   * The index `findIndex` returns: the first slot whose `id` matches, or -1
   * when no slot matches.
   */
  function FirstMatch(list: seq<Coin>, id: Option<Value>): (r: int)
    ensures -1 <= r < |list|
    ensures r == -1 <==> forall i :: 0 <= i < |list| ==> !IdMatches(list[i], id)
    ensures r != -1 ==> IdMatches(list[r], id) && forall i :: 0 <= i < r ==> !IdMatches(list[i], id)
  {
    if list == [] then -1
    else if IdMatches(list[0], id) then 0
    else
      var r := FirstMatch(list[1..], id);
      if r == -1 then -1 else r + 1
  }

  /** `state.list.findIndex(coin => coin.id === id)`, as a linear search. */
  method FindIndex(list: seq<Coin>, id: Option<Value>) returns (index: int)
    ensures index == FirstMatch(list, id)
  {
    index := 0;
    while index < |list|
      invariant 0 <= index <= |list|
      invariant forall i :: 0 <= i < index ==> !IdMatches(list[i], id)
    {
      if IdMatches(list[index], id) {
        return;
      }
      index := index + 1;
    }
    index := -1;
  }

  /** The slice state as a plain object, the way a spread `{...state}` sees it. */
  function StateObject(list: seq<Coin>, status: string, error: Value): (r: Coin)
    ensures r.Keys == StateKeys
    ensures r["status"] == Str(status) && r["error"] == error
    ensures r["list"].Arr? && |r["list"].elems| == |list|
    ensures forall i :: 0 <= i < |list| ==> r["list"].elems[i] == Obj(list[i])
  {
    map["list" := Arr(seq(|list|, i requires 0 <= i < |list| => Obj(list[i]))),
        "status" := Str(status),
        "error" := error]
  }

  /**
   * The value `updateCoin` writes into the matched slot: `{...state, ...payload}`,
   * the slice state's properties overlaid by the payload's, payload winning.
   * The element being replaced takes no part in it.
   */
  function SpreadSlot(list: seq<Coin>, status: string, error: Value, payload: Coin): (r: Coin)
    ensures r.Keys == StateKeys + payload.Keys
    ensures forall k :: k in payload ==> r[k] == payload[k]
    ensures "status" !in payload ==> r["status"] == Str(status)
    ensures "error" !in payload ==> r["error"] == error
  {
    StateObject(list, status, error) + payload
  }

  /** The list after `updateCoin(payload)`: the first match overwritten, or no change. */
  function UpdatedList(list: seq<Coin>, status: string, error: Value, payload: Coin): (r: seq<Coin>)
    ensures |r| == |list|
    ensures forall i :: 0 <= i < |list| ==> r[i] == list[i] || r[i] == SpreadSlot(list, status, error, payload)
  {
    var index := FirstMatch(list, Get(payload, "id"));
    if index == -1 then list else list[index := SpreadSlot(list, status, error, payload)]
  }

  /** When no slot has the payload's `id`, the list is left as it was. */
  lemma UpdateNotFound(list: seq<Coin>, status: string, error: Value, payload: Coin)
    requires forall i :: 0 <= i < |list| ==> !IdMatches(list[i], Get(payload, "id"))
    ensures UpdatedList(list, status, error, payload) == list
  {
  }

  /**
   * When some slot has the payload's `id`, exactly the first such slot is
   * replaced by the spread value; the length and every other slot are kept.
   */
  lemma UpdateFound(list: seq<Coin>, status: string, error: Value, payload: Coin, k: int)
    requires 0 <= k < |list| && IdMatches(list[k], Get(payload, "id"))
    requires forall i :: 0 <= i < k ==> !IdMatches(list[i], Get(payload, "id"))
    ensures |UpdatedList(list, status, error, payload)| == |list|
    ensures UpdatedList(list, status, error, payload)[k] == SpreadSlot(list, status, error, payload)
    ensures forall i :: 0 <= i < |list| && i != k ==> UpdatedList(list, status, error, payload)[i] == list[i]
  {
    assert FirstMatch(list, Get(payload, "id")) == k;
  }

  /**
   * The rewritten slot carries the payload's `id`, while a property of the old
   * element that the payload does not set (such as `symbol`) is lost, unless it
   * happens to be one of the slice state's own property names.
   */
  lemma UpdateDropsOldFields(list: seq<Coin>, status: string, error: Value, payload: Coin, k: int, key: string)
    requires "id" in payload
    requires 0 <= k < |list| && IdMatches(list[k], Get(payload, "id"))
    requires forall i :: 0 <= i < k ==> !IdMatches(list[i], Get(payload, "id"))
    requires key in list[k] && key !in payload && key !in StateKeys
    ensures "id" in UpdatedList(list, status, error, payload)[k]
    ensures UpdatedList(list, status, error, payload)[k]["id"] == payload["id"]
    ensures key !in UpdatedList(list, status, error, payload)[k]
  {
    UpdateFound(list, status, error, payload, k);
  }

  /** The coins slice state; `Valid` is the invariant every reducer keeps. */
  class CoinsState {
    var list: seq<Coin>
    var status: string
    var error: Value

    /** No reducer ever records a failure: the status is idle or succeeded and the error stays null. */
    ghost predicate Valid()
      reads this
    {
      (status == Idle || status == Succeeded) && error == Null
    }

    /**
     * A valid slice never has status 'failed' nor an error, so the page's
     * failure message is never shown.
     */
    lemma NeverFailed()
      requires Valid()
      ensures status != "failed" && error == Null
    {
    }

    /** `initialState`: an empty list, status idle, no error. */
    constructor ()
      ensures Valid()
      ensures list == [] && status == Idle && error == Null
    {
      list := [];
      status := Idle;
      error := Null;
    }

    /** `setCoins(payload)`: the list becomes exactly the payload; the error is untouched. */
    method SetCoins(payload: seq<Coin>)
      modifies this
      ensures list == payload && status == Succeeded && error == old(error)
      ensures old(Valid()) ==> Valid()
    {
      list := payload;
      status := Succeeded;
    }

    /** `resetCoins()`: from any state, back to the initial state (so resetting twice is resetting once). */
    method ResetCoins()
      modifies this
      ensures Valid()
      ensures list == [] && status == Idle && error == Null
    {
      list := [];
      status := Idle;
      error := Null;
    }

    /**
     * `updateCoin(payload)`: find the first slot whose `id` matches and overwrite
     * that slot with the spread value; status and error are unchanged.
     */
    method UpdateCoin(payload: Coin)
      modifies this
      ensures list == UpdatedList(old(list), old(status), old(error), payload)
      ensures status == old(status) && error == old(error)
      ensures old(Valid()) ==> Valid()
    {
      var index := FindIndex(list, Get(payload, "id"));
      if index != -1 {
        list := list[index := SpreadSlot(list, status, error, payload)];
      }
    }
  }
}
