/** What the stock-card edit form and the location screen promise: when
    they refuse a request, what an accepted one changes (and cascades), and
    the case-insensitive uniqueness of item and location names. */
module CatalogLaws {
  import opened Text
  import opened Seqs
  import opened Inventory

  // ----- editing a stock item -----

  /** The edit is refused for a blank field, or for a new name that differs
      from the old one other than in letter case and that some item already
      carries in any letter case; otherwise it is accepted. */
  lemma EditItemOutcome(s: State, oldName: string, typedName: string, typedCategory: string,
                        newLocation: string, newLastUpdated: string)
    ensures var r := EditItem(s, oldName, typedName, typedCategory, newLocation, newLastUpdated);
      var newName := Trim(typedName);
      var blank := newName == [] || Trim(typedCategory) == [] || newLocation == [] || newLastUpdated == [];
      var taken := Fold(newName) != Fold(oldName) && exists i :: 0 <= i < |s.items| && Fold(s.items[i].name) == Fold(newName);
      && (r == Err(MissingField) <==> blank)
      && (r == Err(DuplicateName) <==> !blank && taken)
      && (r.Ok? <==> !blank && !taken)
  {
    var newName := Trim(typedName);
    if FindByFold(s.items, newName).None? {
      assert forall i :: 0 <= i < |s.items| ==> Fold(s.items[i].name) != Fold(newName);
    }
  }

  /** An accepted edit gives the item whose name is exactly `oldName` (the
      first one, if any) the four new fields and keeps its quantity; every
      other item and the locations stay as they were; every record under
      `oldName` now carries the new name and no other record changes. */
  lemma EditItemEffect(s: State, oldName: string, typedName: string, typedCategory: string,
                       newLocation: string, newLastUpdated: string)
    requires EditItem(s, oldName, typedName, typedCategory, newLocation, newLastUpdated).Ok?
    ensures var t := EditItem(s, oldName, typedName, typedCategory, newLocation, newLastUpdated).state;
      var newName := Trim(typedName);
      && t.locations == s.locations
      && |t.items| == |s.items|
      && (match FindByName(s.items, oldName)
          case None => t.items == s.items
          case Some(k) =>
            && t.items[k] == StockItem(newName, s.items[k].quantity, newLocation, Trim(typedCategory), newLastUpdated)
            && forall j :: 0 <= j < |s.items| && j != k ==> t.items[j] == s.items[j])
      && |t.entradas| == |s.entradas| && |t.saidas| == |s.saidas|
      && (forall i :: 0 <= i < |s.entradas| ==>
            t.entradas[i] == if s.entradas[i].itemName == oldName then s.entradas[i].(itemName := newName) else s.entradas[i])
      && (forall i :: 0 <= i < |s.saidas| ==>
            t.saidas[i] == if s.saidas[i].itemName == oldName then s.saidas[i].(itemName := newName) else s.saidas[i])
  {
    var t := EditItem(s, oldName, typedName, typedCategory, newLocation, newLastUpdated).state;
    var newName := Trim(typedName);
    if newName != oldName {
      assert t.entradas == RenameEntradas(s.entradas, oldName, newName);
      assert t.saidas == RenameSaidas(s.saidas, oldName, newName);
    } else {
      assert t.entradas == s.entradas && t.saidas == s.saidas;
    }
  }

  /** After a rename no record is left under the old name. */
  lemma EditItemLeavesNoStaleName(s: State, oldName: string, typedName: string, typedCategory: string,
                                  newLocation: string, newLastUpdated: string)
    requires EditItem(s, oldName, typedName, typedCategory, newLocation, newLastUpdated).Ok?
    requires Trim(typedName) != oldName
    ensures var t := EditItem(s, oldName, typedName, typedCategory, newLocation, newLastUpdated).state;
      && (forall i :: 0 <= i < |t.entradas| ==> t.entradas[i].itemName != oldName)
      && (forall i :: 0 <= i < |t.saidas| ==> t.saidas[i].itemName != oldName)
  {
    EditItemEffect(s, oldName, typedName, typedCategory, newLocation, newLastUpdated);
  }

  /** Editing an item moves no stock and no recorded flow. */
  lemma EditItemKeepsBalance(s: State, oldName: string, typedName: string, typedCategory: string,
                             newLocation: string, newLastUpdated: string)
    ensures var t := After(s, EditItem(s, oldName, typedName, typedCategory, newLocation, newLastUpdated));
      && TotalStock(t.items) == TotalStock(s.items)
      && Balance(t) == Balance(s)
  {
    var r := EditItem(s, oldName, typedName, typedCategory, newLocation, newLastUpdated);
    if r.Ok? {
      var t := r.state;
      var newName := Trim(typedName);
      assert EntradaTotal(t.entradas) == EntradaTotal(s.entradas) && SaidaTotal(t.saidas) == SaidaTotal(s.saidas) by {
        if newName != oldName {
          assert t.entradas == RenameEntradas(s.entradas, oldName, newName);
          assert t.saidas == RenameSaidas(s.saidas, oldName, newName);
        }
      }
      match FindByName(s.items, oldName)
      case None =>
        assert t.items == s.items;
      case Some(k) =>
        var updated := StockItem(newName, s.items[k].quantity, newLocation, Trim(typedCategory), newLastUpdated);
        assert t.items == s.items[k := updated];
        SumOfUpdate(s.items, k, updated, ItemQuantity);
    }
  }
  /** The pointwise half of `EditItemKeepsOtherItemBalances`. */
  lemma KeptShares(s: State, t: State, oldName: string, newName: string, n: string)
    requires newName == oldName || (n != oldName && n != newName)
    requires |t.items| == |s.items| && |t.entradas| == |s.entradas| && |t.saidas| == |s.saidas|
    requires match FindByName(s.items, oldName)
      case None => t.items == s.items
      case Some(k) =>
        && t.items[k].name == newName && t.items[k].quantity == s.items[k].quantity
        && forall j :: 0 <= j < |s.items| && j != k ==> t.items[j] == s.items[j]
    requires forall i :: 0 <= i < |s.entradas| ==>
      t.entradas[i] == if s.entradas[i].itemName == oldName then s.entradas[i].(itemName := newName) else s.entradas[i]
    requires forall i :: 0 <= i < |s.saidas| ==>
      t.saidas[i] == if s.saidas[i].itemName == oldName then s.saidas[i].(itemName := newName) else s.saidas[i]
    ensures ItemBalance(t, n) == ItemBalance(s, n)
  {
    SumOfPointwise(t.items, StockShare(n), s.items, StockShare(n));
    SumOfPointwise(t.entradas, EntradaShare(n), s.entradas, EntradaShare(n));
    SumOfPointwise(t.saidas, SaidaShare(n), s.saidas, SaidaShare(n));
  }

  /** An item edit keeps the balance of every product other than the old
      and the new name; when the name stays, it keeps them all. */
  lemma EditItemKeepsOtherItemBalances(s: State, oldName: string, typedName: string, typedCategory: string,
                                       newLocation: string, newLastUpdated: string, n: string)
    requires Trim(typedName) == oldName || (n != oldName && n != Trim(typedName))
    ensures ItemBalance(After(s, EditItem(s, oldName, typedName, typedCategory, newLocation, newLastUpdated)), n)
      == ItemBalance(s, n)
  {
    var r := EditItem(s, oldName, typedName, typedCategory, newLocation, newLastUpdated);
    if r.Ok? {
      var t := r.state;
      EditItemEffect(s, oldName, typedName, typedCategory, newLocation, newLastUpdated);
      KeptShares(s, t, oldName, Trim(typedName), n);
    }
  }

  /** The stock half of `EditItemMovesItemBalance`. */
  lemma RenamedItemShares(items: seq<StockItem>, renamed: seq<StockItem>, oldName: string, newName: string)
    requires DistinctKeys(items, FoldedName) && newName != oldName && |renamed| == |items|
    requires match FindByName(items, oldName)
      case None => renamed == items
      case Some(k) =>
        && renamed[k].name == newName && renamed[k].quantity == items[k].quantity
        && forall j :: 0 <= j < |items| && j != k ==> renamed[j] == items[j]
    ensures SumOf(renamed, StockShare(newName)) == SumOf(items, StockShare(newName)) + SumOf(items, StockShare(oldName))
    ensures SumOf(renamed, StockShare(oldName)) == 0
  {
    forall j | 0 <= j < |renamed|
      ensures StockShare(newName)(renamed[j]) == StockShare(newName)(items[j]) + StockShare(oldName)(items[j])
      ensures StockShare(oldName)(renamed[j]) == 0
    {
      match FindByName(items, oldName)
      case None =>
      case Some(k) =>
        if j < k {
          assert FoldedName(items[j]) != FoldedName(items[k]);
        } else if k < j {
          assert FoldedName(items[k]) != FoldedName(items[j]);
        }
    }
    SumOfSplit(renamed, StockShare(newName), items, StockShare(newName), StockShare(oldName));
    SumOfZero(renamed, StockShare(oldName));
  }

  /** The entrada half of `EditItemMovesItemBalance`. */
  lemma RenamedEntradaShares(entradas: seq<Entrada>, renamed: seq<Entrada>, oldName: string, newName: string)
    requires newName != oldName && |renamed| == |entradas|
    requires forall i :: 0 <= i < |entradas| ==>
      renamed[i] == if entradas[i].itemName == oldName then entradas[i].(itemName := newName) else entradas[i]
    ensures SumOf(renamed, EntradaShare(newName))
      == SumOf(entradas, EntradaShare(newName)) + SumOf(entradas, EntradaShare(oldName))
    ensures SumOf(renamed, EntradaShare(oldName)) == 0
  {
    SumOfSplit(renamed, EntradaShare(newName), entradas, EntradaShare(newName), EntradaShare(oldName));
    SumOfZero(renamed, EntradaShare(oldName));
  }

  /** The saída half of `EditItemMovesItemBalance`. */
  lemma RenamedSaidaShares(saidas: seq<Saida>, renamed: seq<Saida>, oldName: string, newName: string)
    requires newName != oldName && |renamed| == |saidas|
    requires forall i :: 0 <= i < |saidas| ==>
      renamed[i] == if saidas[i].itemName == oldName then saidas[i].(itemName := newName) else saidas[i]
    ensures SumOf(renamed, SaidaShare(newName)) == SumOf(saidas, SaidaShare(newName)) + SumOf(saidas, SaidaShare(oldName))
    ensures SumOf(renamed, SaidaShare(oldName)) == 0
  {
    SumOfSplit(renamed, SaidaShare(newName), saidas, SaidaShare(newName), SaidaShare(oldName));
    SumOfZero(renamed, SaidaShare(oldName));
  }

  /** When no two items share a name in any letter case, a rename hands the
      balance of the old name to the new one: the item and all its records
      go over, and nothing is left under the old name. */
  lemma EditItemMovesItemBalance(s: State, oldName: string, typedName: string, typedCategory: string,
                                 newLocation: string, newLastUpdated: string)
    requires Catalogued(s) && Trim(typedName) != oldName
    requires EditItem(s, oldName, typedName, typedCategory, newLocation, newLastUpdated).Ok?
    ensures var t := EditItem(s, oldName, typedName, typedCategory, newLocation, newLastUpdated).state;
      && ItemBalance(t, Trim(typedName)) == ItemBalance(s, Trim(typedName)) + ItemBalance(s, oldName)
      && ItemBalance(t, oldName) == 0
  {
    var t := EditItem(s, oldName, typedName, typedCategory, newLocation, newLastUpdated).state;
    var newName := Trim(typedName);
    EditItemEffect(s, oldName, typedName, typedCategory, newLocation, newLastUpdated);
    RenamedItemShares(s.items, t.items, oldName, newName);
    RenamedEntradaShares(s.entradas, t.entradas, oldName, newName);
    RenamedSaidaShares(s.saidas, t.saidas, oldName, newName);
  }

  lemma EditItemKeepsValid(s: State, oldName: string, typedName: string, typedCategory: string,
                           newLocation: string, newLastUpdated: string)
    requires Valid(s)
    ensures Valid(After(s, EditItem(s, oldName, typedName, typedCategory, newLocation, newLastUpdated)))
  {
    var r := EditItem(s, oldName, typedName, typedCategory, newLocation, newLastUpdated);
    if r.Ok? {
      EditItemEffect(s, oldName, typedName, typedCategory, newLocation, newLastUpdated);
    }
  }

  /** The duplicate check keeps item names distinct in letter case: the
      renamed item either keeps its name up to case or takes one no item has. */
  lemma EditItemKeepsCatalogued(s: State, oldName: string, typedName: string, typedCategory: string,
                                newLocation: string, newLastUpdated: string)
    requires Catalogued(s)
    ensures Catalogued(After(s, EditItem(s, oldName, typedName, typedCategory, newLocation, newLastUpdated)))
  {
    var r := EditItem(s, oldName, typedName, typedCategory, newLocation, newLastUpdated);
    if r.Ok? {
      EditItemEffect(s, oldName, typedName, typedCategory, newLocation, newLastUpdated);
      EditItemOutcome(s, oldName, typedName, typedCategory, newLocation, newLastUpdated);
      match FindByName(s.items, oldName)
      case None =>
      case Some(k) =>
        var t := r.state.items;
        var newName := Trim(typedName);
        assert forall j :: 0 <= j < |s.items| && j != k ==> Fold(t[j].name) != Fold(newName) by {
          forall j | 0 <= j < |s.items| && j != k ensures Fold(t[j].name) != Fold(newName) {
            assert t[j] == s.items[j];
            if Fold(newName) == Fold(oldName) {
              assert s.items[k].name == oldName;
              if j < k {
                assert FoldedName(s.items[j]) != FoldedName(s.items[k]);
              } else {
                assert FoldedName(s.items[k]) != FoldedName(s.items[j]);
              }
            }
          }
        }
        forall i, j | 0 <= i < j < |t| ensures FoldedName(t[i]) != FoldedName(t[j]) {
          if i != k && j != k {
            assert t[i] == s.items[i] && t[j] == s.items[j];
            assert FoldedName(s.items[i]) != FoldedName(s.items[j]);
          }
        }
    }
  }

  // ----- the ledger handlers and name uniqueness -----

  /** Handlers that leave every item's name and the locations alone keep
      names distinct in letter case. */
  lemma SameNamesKeepCatalogued(s: State, t: State)
    requires Catalogued(s) && t.locations == s.locations && |t.items| == |s.items|
    requires forall i :: 0 <= i < |s.items| ==> t.items[i].name == s.items[i].name
    ensures Catalogued(t)
  {
    forall i, j | 0 <= i < j < |t.items| ensures FoldedName(t.items[i]) != FoldedName(t.items[j]) {
      assert FoldedName(s.items[i]) != FoldedName(s.items[j]);
    }
  }

  lemma AdjustExactKeepsNames(items: seq<StockItem>, name: string, delta: int)
    ensures var r := AdjustExact(items, name, delta);
      |r| == |items| && forall i :: 0 <= i < |items| ==> r[i].name == items[i].name
  {
    var r := AdjustExact(items, name, delta);
    forall i | 0 <= i < |items| ensures r[i].name == items[i].name {
      if Some(i) != FindByName(items, name) {
        assert r[i] == items[i];
      }
    }
  }

  /** An entrada for a new name adds an item that no present item matches
      in letter case, so item names stay distinct in letter case. */
  lemma PostEntradaKeepsCatalogued(s: State, typedName: string, quantity: int, location: string, category: string,
                                   date: string, today: string, id: int)
    requires Catalogued(s)
    ensures Catalogued(After(s, PostEntrada(s, typedName, quantity, location, category, date, today, id)))
  {
    var r := PostEntrada(s, typedName, quantity, location, category, date, today, id);
    var name := Trim(typedName);
    if r.Ok? {
      match FindByFold(s.items, name)
      case Some(k) =>
        SameNamesKeepCatalogued(s, r.state);
      case None =>
        var added := StockItem(name, quantity, location, category, today);
        var grown := s.items + [added];
        assert DistinctKeys(grown, FoldedName) by {
          forall i, j | 0 <= i < j < |grown| ensures FoldedName(grown[i]) != FoldedName(grown[j]) {
            assert grown[i] == s.items[i];
            if j < |s.items| {
              assert grown[j] == s.items[j];
            }
          }
        }
        SortByCorrect(grown, ItemKey);
        PermutationKeepsDistinctKeys(grown, SortItems(grown), FoldedName);
    }
  }

  lemma EditEntradaKeepsCatalogued(s: State, id: int, newQuantity: int, newDate: string)
    requires Catalogued(s)
    ensures Catalogued(After(s, EditEntrada(s, id, newQuantity, newDate)))
  {
    var r := EditEntrada(s, id, newQuantity, newDate);
    if r.Ok? {
      var e := FindEntrada(s.entradas, id).value;
      AdjustExactKeepsNames(s.items, s.entradas[e].itemName, newQuantity - s.entradas[e].quantity);
      SameNamesKeepCatalogued(s, r.state);
    }
  }

  lemma DeleteEntradaKeepsCatalogued(s: State, id: int, confirmed: bool)
    requires Catalogued(s)
    ensures Catalogued(After(s, DeleteEntrada(s, id, confirmed)))
  {
    var r := DeleteEntrada(s, id, confirmed);
    if r.Ok? {
      var e := FindEntrada(s.entradas, id).value;
      AdjustExactKeepsNames(s.items, s.entradas[e].itemName, -s.entradas[e].quantity);
      SameNamesKeepCatalogued(s, r.state);
    }
  }

  lemma PostSaidaKeepsCatalogued(s: State, typedName: string, quantity: int, date: string, observation: string, id: int)
    requires Catalogued(s)
    ensures Catalogued(After(s, PostSaida(s, typedName, quantity, date, observation, id)))
  {
    var r := PostSaida(s, typedName, quantity, date, observation, id);
    if r.Ok? {
      SameNamesKeepCatalogued(s, r.state);
    }
  }

  lemma EditSaidaKeepsCatalogued(s: State, id: int, newQuantity: int, newObservation: string, newDate: string)
    requires Catalogued(s)
    ensures Catalogued(After(s, EditSaida(s, id, newQuantity, newObservation, newDate)))
  {
    var r := EditSaida(s, id, newQuantity, newObservation, newDate);
    if r.Ok? {
      SameNamesKeepCatalogued(s, r.state);
    }
  }

  lemma DeleteSaidaKeepsCatalogued(s: State, id: int, confirmed: bool)
    requires Catalogued(s)
    ensures Catalogued(After(s, DeleteSaida(s, id, confirmed)))
  {
    var r := DeleteSaida(s, id, confirmed);
    if r.Ok? {
      var e := FindSaida(s.saidas, id).value;
      AdjustExactKeepsNames(s.items, s.saidas[e].itemName, s.saidas[e].quantity);
      SameNamesKeepCatalogued(s, r.state);
    }
  }

  // ----- adding a location -----

  /** A location is added exactly when its trimmed name is not blank and no
      location has it in any letter case. */
  lemma AddLocationOutcome(s: State, typedName: string)
    ensures var r := AddLocation(s, typedName); var name := Trim(typedName);
      var taken := exists i :: 0 <= i < |s.locations| && Fold(s.locations[i]) == Fold(name);
      && (r == Err(MissingField) <==> name == [])
      && (r == Err(DuplicateName) <==> name != [] && taken)
      && (r.Ok? <==> name != [] && !taken)
  {
  }

  /** An added location joins the list, which is then sorted; nothing else
      changes. */
  lemma AddLocationEffect(s: State, typedName: string)
    requires AddLocation(s, typedName).Ok?
    ensures var t := AddLocation(s, typedName).state;
      && SortedBy(t.locations, Self)
      && multiset(t.locations) == multiset(s.locations) + multiset{Trim(typedName)}
      && |t.locations| == |s.locations| + 1
      && t.items == s.items && t.entradas == s.entradas && t.saidas == s.saidas
  {
    SortByCorrect(s.locations + [Trim(typedName)], Self);
  }

  /** Adding a location never creates a case-insensitive duplicate. */
  lemma AddLocationKeepsCatalogued(s: State, typedName: string)
    requires Catalogued(s)
    ensures Catalogued(After(s, AddLocation(s, typedName)))
  {
    if AddLocation(s, typedName).Ok? {
      var name := Trim(typedName);
      var grown := s.locations + [name];
      assert DistinctKeys(grown, Fold) by {
        forall i, j | 0 <= i < j < |grown| ensures Fold(grown[i]) != Fold(grown[j]) {
          if j < |s.locations| {
            assert grown[i] == s.locations[i] && grown[j] == s.locations[j];
          } else {
            assert grown[i] == s.locations[i];
          }
        }
      }
      SortByCorrect(grown, Self);
      PermutationKeepsDistinctKeys(grown, SortLocations(grown), Fold);
    }
  }

  // ----- renaming a location -----

  /** A rename is refused for a blank name, and for a name that another
      location (one that is not the old name in any letter case) already
      has in some letter case; otherwise it is accepted. */
  lemma RenameLocationOutcome(s: State, oldName: string, typedName: string)
    ensures var r := RenameLocation(s, oldName, typedName); var newName := Trim(typedName);
      var taken := exists i :: 0 <= i < |s.locations| && Fold(s.locations[i]) == Fold(newName) && Fold(s.locations[i]) != Fold(oldName);
      && (r == Err(MissingField) <==> newName == [])
      && (r == Err(DuplicateName) <==> newName != [] && taken)
      && (r.Ok? <==> newName != [] && !taken)
  {
  }

  /** An accepted rename replaces the old name in the location list, which
      is then sorted, and moves every item at the old location to the new
      one, changing nothing else about any item or record. */
  lemma RenameLocationEffect(s: State, oldName: string, typedName: string)
    requires RenameLocation(s, oldName, typedName).Ok?
    ensures var t := RenameLocation(s, oldName, typedName).state; var newName := Trim(typedName);
      && SortedBy(t.locations, Self)
      && multiset(t.locations) == multiset(ReplaceLocation(s.locations, oldName, newName))
      && |t.items| == |s.items|
      && (forall i :: 0 <= i < |s.items| ==>
            t.items[i] == if s.items[i].location == oldName then s.items[i].(location := newName) else s.items[i])
      && t.entradas == s.entradas && t.saidas == s.saidas
  {
    SortByCorrect(ReplaceLocation(s.locations, oldName, Trim(typedName)), Self);
  }

  /** After a rename to a different name no item is left at the old location. */
  lemma RenameLocationLeavesNoStaleLocation(s: State, oldName: string, typedName: string)
    requires RenameLocation(s, oldName, typedName).Ok? && Trim(typedName) != oldName
    ensures var t := RenameLocation(s, oldName, typedName).state;
      forall i :: 0 <= i < |t.items| ==> t.items[i].location != oldName
  {
    RenameLocationEffect(s, oldName, typedName);
  }

  lemma RenameLocationKeepsBalance(s: State, oldName: string, typedName: string)
    ensures Balance(After(s, RenameLocation(s, oldName, typedName))) == Balance(s)
  {
  }
  /** Moving items to the renamed location keeps the balance of every product. */
  lemma RenameLocationKeepsItemBalance(s: State, oldName: string, typedName: string, n: string)
    ensures ItemBalance(After(s, RenameLocation(s, oldName, typedName)), n) == ItemBalance(s, n)
  {
    var r := RenameLocation(s, oldName, typedName);
    if r.Ok? {
      SumOfPointwise(r.state.items, StockShare(n), s.items, StockShare(n));
    }
  }

  /** Renaming keeps location names distinct in letter case: the only
      location the new name may match up to case is the one renamed. */
  lemma RenameLocationKeepsCatalogued(s: State, oldName: string, typedName: string)
    requires Catalogued(s)
    ensures Catalogued(After(s, RenameLocation(s, oldName, typedName)))
  {
    if RenameLocation(s, oldName, typedName).Ok? {
      var newName := Trim(typedName);
      var l := s.locations;
      var m := ReplaceLocation(l, oldName, newName);
      RenameLocationOutcome(s, oldName, typedName);
      assert DistinctKeys(m, Fold) by {
        forall i, j | 0 <= i < j < |m| ensures Fold(m[i]) != Fold(m[j]) {
          assert Fold(l[i]) != Fold(l[j]);
          if l[i] == oldName && l[j] != oldName {
            assert Fold(l[j]) != Fold(oldName);
          } else if l[i] != oldName && l[j] == oldName {
            assert Fold(l[i]) != Fold(oldName);
          }
        }
      }
      SortByCorrect(m, Self);
      PermutationKeepsDistinctKeys(m, SortLocations(m), Fold);
      var t := RenameLocation(s, oldName, typedName).state;
      forall i, j | 0 <= i < j < |t.items| ensures FoldedName(t.items[i]) != FoldedName(t.items[j]) {
        assert FoldedName(s.items[i]) != FoldedName(s.items[j]);
      }
    }
  }

  // ----- deleting a location -----

  /** A location is deleted exactly when no item is at it and the deletion
      is confirmed; the use check comes first. */
  lemma DeleteLocationOutcome(s: State, name: string, confirmed: bool)
    ensures var r := DeleteLocation(s, name, confirmed);
      var inUse := exists i :: 0 <= i < |s.items| && s.items[i].location == name;
      && (r == Err(LocationInUse) <==> inUse)
      && (r == Err(Cancelled) <==> !inUse && !confirmed)
      && (r.Ok? <==> !inUse && confirmed)
  {
  }

  /** A deletion removes that name, and only it, from the location list and
      keeps the other locations in their order; nothing else changes. */
  lemma DeleteLocationEffect(s: State, name: string, confirmed: bool)
    requires DeleteLocation(s, name, confirmed).Ok?
    ensures var t := DeleteLocation(s, name, confirmed).state;
      && SubsequenceOf(t.locations, s.locations)
      && (forall i :: 0 <= i < |t.locations| ==> t.locations[i] != name)
      && (forall i :: 0 <= i < |s.locations| && s.locations[i] != name ==> s.locations[i] in t.locations)
      && t.items == s.items && t.entradas == s.entradas && t.saidas == s.saidas
  {
    FilterIsSubsequence(s.locations, (l: string) => l != name);
  }

  lemma DeleteLocationKeepsCatalogued(s: State, name: string, confirmed: bool)
    requires Catalogued(s)
    ensures Catalogued(After(s, DeleteLocation(s, name, confirmed)))
  {
    FilterKeepsDistinctKeys(s.locations, (l: string) => l != name, Fold);
  }
}
