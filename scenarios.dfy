/**
 * Proved facts about two concrete coins, Bitcoin and Ether: sorting by name
 * in both directions, searching, and editing one coin's price.
 */
module Scenarios {
  import opened JsValue
  import opened JsString
  import opened JsArray
  import opened CryptoSlice
  import opened CoinTable

  const Bitcoin: Coin := map["id" := Str("a"), "name" := Str("Bitcoin"), "symbol" := Str("BTC"), "priceUsd" := Str("50000.4")]
  const Ether: Coin := map["id" := Str("b"), "name" := Str("Ether"), "symbol" := Str("ETH"), "priceUsd" := Str("3000.1")]

  lemma NameKeys()
    ensures SortKey(Bitcoin, "name") == "bitcoin"
    ensures SortKey(Ether, "name") == "ether"
  {
    var b := Lower("Bitcoin");
    assert forall i :: 0 <= i < 7 ==> b[i] == "bitcoin"[i];
    var e := Lower("Ether");
    assert forall i :: 0 <= i < 5 ==> e[i] == "ether"[i];
  }

  /** Sorting by name: 'asc' gives Bitcoin then Ether, 'desc' the reverse. */
  lemma SortByNameScenario()
    ensures SortedCoins(Some([Bitcoin, Ether]), "name", Asc) == Ok([Bitcoin, Ether])
    ensures SortedCoins(Some([Bitcoin, Ether]), "name", Desc) == Ok([Ether, Bitcoin])
  {
    NameKeys();
    assert Less("bitcoin", "ether");
    var s := [Bitcoin, Ether];
    var asc := Comparator("name", Asc);
    var desc := Comparator("name", Desc);
    assert asc(Bitcoin, Ether) == -1;
    assert desc(Bitcoin, Ether) == 1;
    assert s[1..] == [Ether];
    assert SortWith([Ether], asc) == [Ether];
    assert SortWith([Ether], desc) == [Ether];
    assert SortWith(s, asc) == Insert(Bitcoin, [Ether], asc) == [Bitcoin, Ether];
    assert Insert(Bitcoin, [Ether], desc) == [Ether] + Insert(Bitcoin, [], desc);
    assert SortWith(s, desc) == [Ether, Bitcoin];
    assert forall c :: c in s ==> Keyable(c, "name");
  }

  lemma BitcoinLacksEth()
    ensures !Includes("bitcoin", "eth")
  {
    IncludesIff("bitcoin", "eth");
    forall i | 0 <= i <= 4
      ensures !OccursAt("bitcoin", "eth", i)
    {
      assert "bitcoin"[i..i + 3][0] == "bitcoin"[i];
    }
  }

  /** Ether's name contains "eth" and Bitcoin's does not. */
  lemma EthMatchesEtherOnly()
    ensures Matches(Ether, "eth") && !Matches(Bitcoin, "eth")
  {
    NameKeys();
    assert Lower("eth") == "eth";
    assert Includes("ether", "eth") by {
      assert "eth" <= "ether";
    }
    BitcoinLacksEth();
  }

  /** Filtering Bitcoin and Ether by "eth" keeps Ether alone. */
  lemma FilterEthScenario()
    ensures FilteredCoins([Bitcoin, Ether], "eth") == Ok([Ether])
  {
    EthMatchesEtherOnly();
    var s := [Bitcoin, Ether];
    assert !NameThrows(Bitcoin) && !NameThrows(Ether);
    var keep := MatchesSearch("eth");
    assert s[1..] == [Ether];
    assert FilterWith([Ether], keep) == [Ether];
    assert FilterWith(s, keep) == [Ether];
  }

  /** Searching for "eth" leaves only Ether. */
  lemma SearchScenario()
    ensures DeriveView(Some([Bitcoin, Ether]), "eth", "name", Asc) == Ok([Ether])
  {
    SortByNameScenario();
    FilterEthScenario();
  }

  /** The edit the dialog submits after changing Bitcoin's price. */
  const PriceEdit: Coin := map["id" := Str("a"), "priceUsd" := Str("51000.0")]

  /** The slot value written for the price edit: the new price and the id, no name or symbol. */
  lemma PriceEditSlot()
    ensures var slot := SpreadSlot([Bitcoin, Ether], Succeeded, Null, PriceEdit);
      && slot["priceUsd"] == Str("51000.0") && slot["id"] == Str("a")
      && "name" !in slot && "symbol" !in slot
      && slot["status"] == Str(Succeeded)
  {
    var slot := SpreadSlot([Bitcoin, Ether], Succeeded, Null, PriceEdit);
    assert slot.Keys == StateKeys + PriceEdit.Keys;
  }

  /**
   * Editing Bitcoin's price: the first slot becomes the slice state overlaid
   * by the edit, so it has the new price and the id but no longer the name or
   * symbol; Ether is untouched.
   */
  lemma UpdatePriceScenario()
    ensures var list := UpdatedList([Bitcoin, Ether], Succeeded, Null, PriceEdit);
      && |list| == 2
      && list[0]["priceUsd"] == Str("51000.0") && list[0]["id"] == Str("a")
      && "name" !in list[0] && "symbol" !in list[0]
      && list[0]["status"] == Str(Succeeded)
      && list[1] == Ether
  {
    var list := [Bitcoin, Ether];
    assert IdMatches(Bitcoin, Get(PriceEdit, "id"));
    assert FirstMatch(list, Get(PriceEdit, "id")) == 0;
    PriceEditSlot();
  }
}
