/** The page's module-level data (`mockStockItems`, `mockLocations`,
    `mockEntradas`, `mockSaidas`) as one object whose handlers update it in
    place. Each handler is proved to leave exactly the state the matching
    transition of `Inventory` describes, and to keep the record invariant
    and the case-insensitive uniqueness of names. */
module Store {
  import opened Text
  import opened Seqs
  import opened Inventory
  import LedgerLaws
  import CatalogLaws

  /** The alert a rejected handler shows, or `None` once it has run. */
  function ErrorOf(r: Result): (e: Option<Error>)
    ensures e.None? <==> r.Ok?
    ensures r.Err? ==> e == Some(r.error)
  {
    if r.Ok? then None else Some(r.error)
  }

  const mockStockItems: seq<StockItem> :=
    [ StockItem("Produto X", 120, "A1", "Eletrônicos", "2023-11-15"),
      StockItem("Produto Y", 120, "A1", "Eletrônicos", "2023-11-20"),
      StockItem("Produto Z", 120, "A1", "Ferragens", "2023-11-20"),
      StockItem("Parafuso Allen M5x20", 1500, "Corredor A", "Fixadores", "2023-10-05"),
      StockItem("Arruela Lisa M5", 3200, "Corredor A", "Fixadores", "2023-10-05"),
      StockItem("Óleo Lubrificante WD-40", 50, "Corredor B", "Químicos", "2023-11-15") ]

  const mockLocations: seq<string> := ["Corredor A", "Corredor B", "Corredor C", "Ferramentas", "A1"]

  /** The data the page starts with; `now` is `Date.now()` when it loads. */
  function MockState(now: int): State {
    State(mockStockItems, mockLocations,
      [ Entrada(now + 1, "Produto X", 50, "2023-10-26"),
        Entrada(now + 3, "Parafuso Allen M5x20", 500, "2023-10-05"),
        Entrada(now + 4, "Produto Y", 120, "2023-11-20") ],
      [ Saida(now + 2, "Óleo Lubrificante WD-40", 10, "2023-10-25", "Retirada para manutenção preventiva.") ])
  }

  /** The six starting items differ in length or in their ninth letter. */
  lemma MockItemsCatalogued()
    ensures DistinctKeys(mockStockItems, FoldedName)
  {
    var n := mockStockItems;
    assert |n[0].name| == 9 && |n[1].name| == 9 && |n[2].name| == 9;
    assert |n[3].name| == 20 && |n[4].name| == 15 && |n[5].name| == 23;
    assert Fold(n[0].name)[8] == 'x' && Fold(n[1].name)[8] == 'y' && Fold(n[2].name)[8] == 'z';
    forall i, j | 0 <= i < j < |n| ensures FoldedName(n[i]) != FoldedName(n[j]) {
      if j < 3 {
        assert FoldedName(n[i])[8] != FoldedName(n[j])[8];
      } else {
        assert |FoldedName(n[i])| != |FoldedName(n[j])|;
      }
    }
  }

  /** The five starting locations differ in length or in their tenth letter. */
  lemma MockLocationsCatalogued()
    ensures DistinctKeys(mockLocations, Fold)
  {
    var l := mockLocations;
    assert |l[0]| == 10 && |l[1]| == 10 && |l[2]| == 10 && |l[3]| == 11 && |l[4]| == 2;
    assert Fold(l[0])[9] == 'a' && Fold(l[1])[9] == 'b' && Fold(l[2])[9] == 'c';
    forall i, j | 0 <= i < j < |l| ensures Fold(l[i]) != Fold(l[j]) {
      if j < 3 {
        assert Fold(l[i])[9] != Fold(l[j])[9];
      } else {
        assert |Fold(l[i])| != |Fold(l[j])|;
      }
    }
  }

  /** The starting data already satisfies both invariants. */
  lemma MockStateConsistent(now: int)
    ensures Valid(MockState(now)) && Catalogued(MockState(now))
  {
    MockItemsCatalogued();
    MockLocationsCatalogued();
  }

  class Ledger {
    var items: seq<StockItem>
    var locations: seq<string>
    var entradas: seq<Entrada>
    var saidas: seq<Saida>

    function Snapshot(): State
      reads this
    {
      State(items, locations, entradas, saidas)
    }

    /** Record ids unique, quantities at least 1, and no two items and no
        two locations whose names differ only in letter case. */
    predicate Consistent()
      reads this
    {
      Valid(Snapshot()) && Catalogued(Snapshot())
    }

    constructor (now: int)
      ensures Snapshot() == MockState(now) && Consistent()
    {
      var s := MockState(now);
      items := s.items;
      locations := s.locations;
      entradas := s.entradas;
      saidas := s.saidas;
      MockStateConsistent(now);
    }

    /** The item named exactly `name`, if any, changes its quantity by `delta`
        in place. */
    method Adjust(name: string, delta: int)
      modifies this
      ensures items == AdjustExact(old(items), name, delta)
      ensures locations == old(locations) && entradas == old(entradas) && saidas == old(saidas)
    {
      match FindByName(items, name) {
        case None =>
        case Some(k) =>
          items := items[k := items[k].(quantity := items[k].quantity + delta)];
      }
    }

    /** The stock side of an entrada: the existing item, found ignoring
        letter case, is updated in place, or a new item is pushed and the
        list sorted again. */
    method Receive(itemName: string, quantity: int, location: string, category: string, today: string)
      modifies this
      ensures items == Inventory.Receive(old(items), itemName, quantity, location, category, today)
      ensures locations == old(locations) && entradas == old(entradas) && saidas == old(saidas)
    {
      match FindByFold(items, itemName) {
        case Some(k) =>
          items := items[k := items[k].(quantity := items[k].quantity + quantity, location := location)];
        case None =>
          items := SortItems(items + [StockItem(itemName, quantity, location, category, today)]);
      }
    }

    /** The two `forEach` loops that move the records of `oldName` to `newName`. */
    method RenameRecords(oldName: string, newName: string)
      modifies this
      ensures entradas == RenameEntradas(old(entradas), oldName, newName)
      ensures saidas == RenameSaidas(old(saidas), oldName, newName)
      ensures items == old(items) && locations == old(locations)
    {
      ghost var e0 := entradas;
      var i := 0;
      while i < |entradas|
        invariant 0 <= i <= |entradas| == |e0|
        invariant forall j :: 0 <= j < i ==> entradas[j] == if e0[j].itemName == oldName then e0[j].(itemName := newName) else e0[j]
        invariant forall j :: i <= j < |e0| ==> entradas[j] == e0[j]
        invariant items == old(items) && locations == old(locations) && saidas == old(saidas)
      {
        if entradas[i].itemName == oldName {
          entradas := entradas[i := entradas[i].(itemName := newName)];
        }
        i := i + 1;
      }
      ghost var x0 := saidas;
      i := 0;
      while i < |saidas|
        invariant 0 <= i <= |saidas| == |x0|
        invariant forall j :: 0 <= j < i ==> saidas[j] == if x0[j].itemName == oldName then x0[j].(itemName := newName) else x0[j]
        invariant forall j :: i <= j < |x0| ==> saidas[j] == x0[j]
        invariant items == old(items) && locations == old(locations)
        invariant entradas == RenameEntradas(e0, oldName, newName)
      {
        if saidas[i].itemName == oldName {
          saidas := saidas[i := saidas[i].(itemName := newName)];
        }
        i := i + 1;
      }
    }

    /** The `forEach` that moves the items at `oldName` to `newName`. */
    method MoveItems(oldName: string, newName: string)
      modifies this
      ensures items == Relocate(old(items), oldName, newName)
      ensures locations == old(locations) && entradas == old(entradas) && saidas == old(saidas)
    {
      ghost var i0 := items;
      var i := 0;
      while i < |items|
        invariant 0 <= i <= |items| == |i0|
        invariant forall j :: 0 <= j < i ==> items[j] == if i0[j].location == oldName then i0[j].(location := newName) else i0[j]
        invariant forall j :: i <= j < |i0| ==> items[j] == i0[j]
        invariant locations == old(locations) && entradas == old(entradas) && saidas == old(saidas)
      {
        if items[i].location == oldName {
          items := items[i := items[i].(location := newName)];
        }
        i := i + 1;
      }
    }

    /** The new-entrada form's submit handler; `id` and `today` stand for
        `Date.now()` and today's date. */
    method PostEntrada(typedName: string, quantity: int, location: string, category: string,
                       date: string, today: string, id: int) returns (error: Option<Error>)
      requires Consistent() && FreshEntradaId(Snapshot(), id) && quantity >= 1
      modifies this
      ensures var r := Inventory.PostEntrada(old(Snapshot()), typedName, quantity, location, category, date, today, id);
        Snapshot() == After(old(Snapshot()), r) && error == ErrorOf(r)
      ensures Consistent()
    {
      ghost var s := Snapshot();
      LedgerLaws.PostEntradaKeepsValid(s, typedName, quantity, location, category, date, today, id);
      CatalogLaws.PostEntradaKeepsCatalogued(s, typedName, quantity, location, category, date, today, id);
      var itemName := Trim(typedName);
      if itemName == [] {
        return Some(MissingField);
      }
      Receive(itemName, quantity, location, category, today);
      entradas := entradas + [Entrada(id, itemName, quantity, date)];
      return None;
    }

    /** The entrada edit form's submit handler. */
    method EditEntrada(id: int, newQuantity: int, newDate: string) returns (error: Option<Error>)
      requires Consistent() && newQuantity >= 1
      modifies this
      ensures var r := Inventory.EditEntrada(old(Snapshot()), id, newQuantity, newDate);
        Snapshot() == After(old(Snapshot()), r) && error == ErrorOf(r)
      ensures Consistent()
    {
      ghost var s := Snapshot();
      LedgerLaws.EditEntradaKeepsValid(s, id, newQuantity, newDate);
      CatalogLaws.EditEntradaKeepsCatalogued(s, id, newQuantity, newDate);
      match FindEntrada(entradas, id) {
        case None =>
          return Some(RecordNotFound);
        case Some(e) =>
          var record := entradas[e];
          Adjust(record.itemName, newQuantity - record.quantity);
          entradas := entradas[e := record.(quantity := newQuantity, date := newDate)];
          assert Inventory.EditEntrada(s, id, newQuantity, newDate).state.items == items;
          return None;
      }
    }

    /** An entrada's delete button; `confirmed` is the answer to `confirm`. */
    method DeleteEntrada(id: int, confirmed: bool) returns (error: Option<Error>)
      requires Consistent()
      modifies this
      ensures var r := Inventory.DeleteEntrada(old(Snapshot()), id, confirmed);
        Snapshot() == After(old(Snapshot()), r) && error == ErrorOf(r)
      ensures Consistent()
    {
      ghost var s := Snapshot();
      LedgerLaws.DeleteEntradaKeepsValid(s, id, confirmed);
      CatalogLaws.DeleteEntradaKeepsCatalogued(s, id, confirmed);
      if !confirmed {
        return Some(Cancelled);
      }
      match FindEntrada(entradas, id) {
        case None =>
          return Some(RecordNotFound);
        case Some(e) =>
          var record := entradas[e];
          Adjust(record.itemName, -record.quantity);
          entradas := Filter(entradas, (x: Entrada) => x.id != id);
          return None;
      }
    }

    /** The new-saída form's submit handler. */
    method PostSaida(typedName: string, quantity: int, date: string, observation: string, id: int)
      returns (error: Option<Error>)
      requires Consistent() && FreshSaidaId(Snapshot(), id) && quantity >= 1
      modifies this
      ensures var r := Inventory.PostSaida(old(Snapshot()), typedName, quantity, date, observation, id);
        Snapshot() == After(old(Snapshot()), r) && error == ErrorOf(r)
      ensures Consistent()
    {
      ghost var s := Snapshot();
      LedgerLaws.PostSaidaKeepsValid(s, typedName, quantity, date, observation, id);
      CatalogLaws.PostSaidaKeepsCatalogued(s, typedName, quantity, date, observation, id);
      var itemName := Trim(typedName);
      match FindByFold(items, itemName) {
        case None =>
          return Some(ItemNotFound);
        case Some(k) =>
          if items[k].quantity >= quantity {
            items := items[k := items[k].(quantity := items[k].quantity - quantity)];
            saidas := saidas + [Saida(id, itemName, quantity, date, observation)];
            return None;
          } else {
            return Some(InsufficientStock);
          }
      }
    }

    /** The saída edit form's submit handler. */
    method EditSaida(id: int, newQuantity: int, newObservation: string, newDate: string)
      returns (error: Option<Error>)
      requires Consistent() && newQuantity >= 1
      modifies this
      ensures var r := Inventory.EditSaida(old(Snapshot()), id, newQuantity, newObservation, newDate);
        Snapshot() == After(old(Snapshot()), r) && error == ErrorOf(r)
      ensures Consistent()
    {
      ghost var s := Snapshot();
      LedgerLaws.EditSaidaKeepsValid(s, id, newQuantity, newObservation, newDate);
      CatalogLaws.EditSaidaKeepsCatalogued(s, id, newQuantity, newObservation, newDate);
      match FindSaida(saidas, id) {
        case None =>
          return Some(RecordNotFound);
        case Some(e) =>
          var record := saidas[e];
          match FindByName(items, record.itemName) {
            case None =>
              return Some(ItemNotFound);
            case Some(k) =>
              var diff := newQuantity - record.quantity;
              if items[k].quantity >= diff {
                items := items[k := items[k].(quantity := items[k].quantity - diff)];
                saidas := saidas[e := record.(quantity := newQuantity, date := newDate, observation := newObservation)];
                return None;
              } else {
                return Some(InsufficientStock);
              }
          }
      }
    }

    /** A saída's delete button. */
    method DeleteSaida(id: int, confirmed: bool) returns (error: Option<Error>)
      requires Consistent()
      modifies this
      ensures var r := Inventory.DeleteSaida(old(Snapshot()), id, confirmed);
        Snapshot() == After(old(Snapshot()), r) && error == ErrorOf(r)
      ensures Consistent()
    {
      ghost var s := Snapshot();
      LedgerLaws.DeleteSaidaKeepsValid(s, id, confirmed);
      CatalogLaws.DeleteSaidaKeepsCatalogued(s, id, confirmed);
      if !confirmed {
        return Some(Cancelled);
      }
      match FindSaida(saidas, id) {
        case None =>
          return Some(RecordNotFound);
        case Some(e) =>
          var record := saidas[e];
          Adjust(record.itemName, record.quantity);
          saidas := Filter(saidas, (x: Saida) => x.id != id);
          return None;
      }
    }

    /** The stock card's edit form submit handler for the item `oldName`. */
    method EditItem(oldName: string, typedName: string, typedCategory: string,
                    newLocation: string, newLastUpdated: string) returns (error: Option<Error>)
      requires Consistent()
      modifies this
      ensures var r := Inventory.EditItem(old(Snapshot()), oldName, typedName, typedCategory, newLocation, newLastUpdated);
        Snapshot() == After(old(Snapshot()), r) && error == ErrorOf(r)
      ensures Consistent()
    {
      ghost var s := Snapshot();
      CatalogLaws.EditItemKeepsValid(s, oldName, typedName, typedCategory, newLocation, newLastUpdated);
      CatalogLaws.EditItemKeepsCatalogued(s, oldName, typedName, typedCategory, newLocation, newLastUpdated);
      var newName := Trim(typedName);
      var newCategory := Trim(typedCategory);
      if newName == [] || newCategory == [] || newLocation == [] || newLastUpdated == [] {
        return Some(MissingField);
      }
      if Fold(newName) != Fold(oldName) && FindByFold(items, newName).Some? {
        return Some(DuplicateName);
      }
      match FindByName(items, oldName) {
        case None =>
        case Some(k) =>
          items := items[k := StockItem(newName, items[k].quantity, newLocation, newCategory, newLastUpdated)];
      }
      if newName != oldName {
        RenameRecords(oldName, newName);
      }
      return None;
    }

    /** The add-location form's submit handler. */
    method AddLocation(typedName: string) returns (error: Option<Error>)
      requires Consistent()
      modifies this
      ensures var r := Inventory.AddLocation(old(Snapshot()), typedName);
        Snapshot() == After(old(Snapshot()), r) && error == ErrorOf(r)
      ensures Consistent()
    {
      ghost var s := Snapshot();
      CatalogLaws.AddLocationKeepsCatalogued(s, typedName);
      var name := Trim(typedName);
      if name == [] {
        return Some(MissingField);
      }
      if LocationTaken(locations, name) {
        return Some(DuplicateName);
      }
      locations := SortLocations(locations + [name]);
      return None;
    }

    /** The inline rename form's submit handler for location `oldName`. */
    method RenameLocation(oldName: string, typedName: string) returns (error: Option<Error>)
      requires Consistent()
      modifies this
      ensures var r := Inventory.RenameLocation(old(Snapshot()), oldName, typedName);
        Snapshot() == After(old(Snapshot()), r) && error == ErrorOf(r)
      ensures Consistent()
    {
      ghost var s := Snapshot();
      CatalogLaws.RenameLocationKeepsCatalogued(s, oldName, typedName);
      var newName := Trim(typedName);
      if newName == [] {
        return Some(MissingField);
      }
      if LocationRenameCollides(locations, oldName, newName) {
        return Some(DuplicateName);
      }
      locations := SortLocations(ReplaceLocation(locations, oldName, newName));
      MoveItems(oldName, newName);
      return None;
    }

    /** A location's delete button. */
    method DeleteLocation(name: string, confirmed: bool) returns (error: Option<Error>)
      requires Consistent()
      modifies this
      ensures var r := Inventory.DeleteLocation(old(Snapshot()), name, confirmed);
        Snapshot() == After(old(Snapshot()), r) && error == ErrorOf(r)
      ensures Consistent()
    {
      ghost var s := Snapshot();
      CatalogLaws.DeleteLocationKeepsCatalogued(s, name, confirmed);
      if LocationInUseBy(items, name) {
        return Some(LocationInUse);
      }
      if !confirmed {
        return Some(Cancelled);
      }
      locations := Filter(locations, (l: string) => l != name);
      return None;
    }
  }
}
