/** What the entrada and saída handlers promise: the exact effect of each
    on the stock and the histories, the guards that reject a request, the
    balance between stock and recorded flow, and the record invariant. */
module LedgerLaws {
  import opened Text
  import opened Seqs
  import opened Inventory

  // ----- entradas -----

  /** A blank product name is the only reason to reject an entrada; an
      accepted one appends exactly one record, under the name as typed
      (trimmed), and raises the total stock by the entered quantity. */
  lemma PostEntradaEffect(s: State, typedName: string, quantity: int, location: string, category: string,
                          date: string, today: string, id: int)
    ensures var r := PostEntrada(s, typedName, quantity, location, category, date, today, id);
      && (r.Err? <==> Trim(typedName) == [])
      && (r.Err? ==> r.error == MissingField)
      && (r.Ok? ==>
          && r.state.entradas == s.entradas + [Entrada(id, Trim(typedName), quantity, date)]
          && r.state.saidas == s.saidas
          && r.state.locations == s.locations
          && TotalStock(r.state.items) == TotalStock(s.items) + quantity)
  {
    var r := PostEntrada(s, typedName, quantity, location, category, date, today, id);
    var name := Trim(typedName);
    if name != [] {
      match FindByFold(s.items, name)
      case Some(k) =>
        SumOfUpdate(s.items, k, r.state.items[k], ItemQuantity);
      case None =>
        var added := StockItem(name, quantity, location, category, today);
        SumOfSortBy(s.items + [added], ItemKey, ItemQuantity);
        SumOfAppend(s.items, [added], ItemQuantity);
        SumOfSingleton(added, ItemQuantity);
    }
  }

  /** When the typed name matches an item case-insensitively, that item
      alone changes: its quantity rises by the entered amount and its
      location becomes the chosen one. */
  lemma PostEntradaToExisting(s: State, typedName: string, quantity: int, location: string, category: string,
                              date: string, today: string, id: int, k: nat)
    requires Trim(typedName) != [] && FindByFold(s.items, Trim(typedName)) == Some(k)
    ensures var r := PostEntrada(s, typedName, quantity, location, category, date, today, id);
      && r.Ok? && |r.state.items| == |s.items|
      && r.state.items[k] == s.items[k].(quantity := s.items[k].quantity + quantity, location := location)
      && (forall j :: 0 <= j < |s.items| && j != k ==> r.state.items[j] == s.items[j])
  {
  }

  /** When no item matches, one new item with the entered quantity, the
      chosen location and category and today's date joins the list, which
      is then sorted by name. */
  lemma PostEntradaNewItem(s: State, typedName: string, quantity: int, location: string, category: string,
                           date: string, today: string, id: int)
    requires Trim(typedName) != [] && FindByFold(s.items, Trim(typedName)).None?
    ensures var r := PostEntrada(s, typedName, quantity, location, category, date, today, id);
      && r.Ok?
      && SortedBy(r.state.items, ItemKey)
      && multiset(r.state.items) == multiset(s.items) + multiset{StockItem(Trim(typedName), quantity, location, category, today)}
      && |r.state.items| == |s.items| + 1
  {
    var added := StockItem(Trim(typedName), quantity, location, category, today);
    SortByCorrect(s.items + [added], ItemKey);
  }

  /** Editing an entrada always succeeds for a listed record: only its
      quantity and date change, and the item whose name equals the record's
      exactly (if any) moves by the difference, with no check that the
      result stays non-negative; when no item has that exact name the stock
      is untouched. */
  lemma EditEntradaEffect(s: State, id: int, newQuantity: int, newDate: string, e: nat)
    requires FindEntrada(s.entradas, id) == Some(e)
    ensures var r := EditEntrada(s, id, newQuantity, newDate); var record := s.entradas[e];
      && r.Ok?
      && r.state.entradas == s.entradas[e := record.(quantity := newQuantity, date := newDate)]
      && r.state.saidas == s.saidas && r.state.locations == s.locations
      && |r.state.items| == |s.items|
      && (match FindByName(s.items, record.itemName)
          case None => r.state.items == s.items
          case Some(k) =>
            && r.state.items[k].quantity == s.items[k].quantity + (newQuantity - record.quantity)
            && r.state.items[k] == s.items[k].(quantity := r.state.items[k].quantity)
            && forall j :: 0 <= j < |s.items| && j != k ==> r.state.items[j] == s.items[j])
  {
  }

  lemma EditEntradaUnknown(s: State, id: int, newQuantity: int, newDate: string)
    requires FindEntrada(s.entradas, id).None?
    ensures EditEntrada(s, id, newQuantity, newDate) == Err(RecordNotFound)
  {
  }

  /** Deleting a listed entrada (once confirmed) removes the records with
      its id and no others, keeping their order, and takes its quantity
      back from the exactly-named item without a non-negativity check. */
  lemma DeleteEntradaEffect(s: State, id: int, e: nat)
    requires Valid(s) && FindEntrada(s.entradas, id) == Some(e)
    ensures var r := DeleteEntrada(s, id, true); var record := s.entradas[e];
      && r.Ok?
      && r.state.entradas == s.entradas[..e] + s.entradas[e + 1..]
      && r.state.saidas == s.saidas && r.state.locations == s.locations
      && r.state.items == AdjustExact(s.items, record.itemName, -record.quantity)
      && TotalStock(r.state.items) == TotalStock(s.items) - (if FindByName(s.items, record.itemName).Some? then record.quantity else 0)
  {
    FilterOutOne(s.entradas, e, (x: Entrada) => x.id != id);
  }

  /** Without the uniqueness invariant the delete still removes exactly
      the records carrying that id, and the survivors keep their order. */
  lemma DeleteEntradaRemovesOnlyThatId(s: State, id: int)
    requires FindEntrada(s.entradas, id).Some?
    ensures var r := DeleteEntrada(s, id, true);
      && r.Ok?
      && SubsequenceOf(r.state.entradas, s.entradas)
      && (forall i :: 0 <= i < |r.state.entradas| ==> r.state.entradas[i].id != id)
      && (forall i :: 0 <= i < |s.entradas| && s.entradas[i].id != id ==> s.entradas[i] in r.state.entradas)
  {
    FilterIsSubsequence(s.entradas, (x: Entrada) => x.id != id);
  }

  /** A declined confirmation changes nothing. */
  lemma DeleteDeclined(s: State, id: int)
    ensures DeleteEntrada(s, id, false) == Err(Cancelled)
    ensures DeleteSaida(s, id, false) == Err(Cancelled)
  {
  }

  // ----- saídas -----

  /** A saída is recorded exactly when an item matches the typed name
      case-insensitively and holds at least the requested quantity; that
      item then drops by exactly the request, staying non-negative, and one
      record is appended. An unknown name and insufficient stock are
      reported apart. */
  lemma PostSaidaEffect(s: State, typedName: string, quantity: int, date: string, observation: string, id: int)
    ensures var r := PostSaida(s, typedName, quantity, date, observation, id);
      var f := FindByFold(s.items, Trim(typedName));
      && (r.Ok? <==> f.Some? && s.items[f.value].quantity >= quantity)
      && (r == Err(ItemNotFound) <==> f.None?)
      && (r == Err(InsufficientStock) <==> f.Some? && s.items[f.value].quantity < quantity)
      && (r.Ok? ==>
          var k := f.value;
          && |r.state.items| == |s.items|
          && r.state.items[k] == s.items[k].(quantity := s.items[k].quantity - quantity)
          && r.state.items[k].quantity >= 0
          && (forall j :: 0 <= j < |s.items| && j != k ==> r.state.items[j] == s.items[j])
          && r.state.saidas == s.saidas + [Saida(id, Trim(typedName), quantity, date, observation)]
          && r.state.entradas == s.entradas && r.state.locations == s.locations)
  {
  }

  /** Editing a saída succeeds exactly when the item named by the record
      exists and holds at least the increase requested; a missing item and
      short stock are told apart by the error. An accepted edit moves the item
      by the difference and cannot go negative, and the record takes
      the new quantity, date and observation. */
  lemma EditSaidaEffect(s: State, id: int, newQuantity: int, newObservation: string, newDate: string, e: nat)
    requires FindSaida(s.saidas, id) == Some(e)
    ensures var r := EditSaida(s, id, newQuantity, newObservation, newDate);
      var record := s.saidas[e]; var f := FindByName(s.items, record.itemName);
      && (r.Ok? <==> f.Some? && s.items[f.value].quantity >= newQuantity - record.quantity)
      && (r == Err(ItemNotFound) <==> f.None?)
      && (r == Err(InsufficientStock) <==> f.Some? && s.items[f.value].quantity < newQuantity - record.quantity)
      && (r.Ok? ==>
          var k := f.value;
          && |r.state.items| == |s.items|
          && r.state.items[k] == s.items[k].(quantity := s.items[k].quantity - (newQuantity - record.quantity))
          && r.state.items[k].quantity >= 0
          && (forall j :: 0 <= j < |s.items| && j != k ==> r.state.items[j] == s.items[j])
          && r.state.saidas == s.saidas[e := record.(quantity := newQuantity, date := newDate, observation := newObservation)]
          && r.state.entradas == s.entradas && r.state.locations == s.locations)
  {
  }

  /** Lowering a saída is always accepted while its item is listed with
      non-negative stock. */
  lemma EditSaidaDecreaseAccepted(s: State, id: int, newQuantity: int, newObservation: string, newDate: string, e: nat, k: nat)
    requires FindSaida(s.saidas, id) == Some(e)
    requires FindByName(s.items, s.saidas[e].itemName) == Some(k)
    requires s.items[k].quantity >= 0 && newQuantity <= s.saidas[e].quantity
    ensures EditSaida(s, id, newQuantity, newObservation, newDate).Ok?
  {
  }

  /** Deleting a listed saída (once confirmed) removes just that record and
      returns its quantity to the exactly-named item. */
  lemma DeleteSaidaEffect(s: State, id: int, e: nat)
    requires Valid(s) && FindSaida(s.saidas, id) == Some(e)
    ensures var r := DeleteSaida(s, id, true); var record := s.saidas[e];
      && r.Ok?
      && r.state.saidas == s.saidas[..e] + s.saidas[e + 1..]
      && r.state.entradas == s.entradas && r.state.locations == s.locations
      && r.state.items == AdjustExact(s.items, record.itemName, record.quantity)
      && TotalStock(r.state.items) == TotalStock(s.items) + (if FindByName(s.items, record.itemName).Some? then record.quantity else 0)
  {
    FilterOutOne(s.saidas, e, (x: Saida) => x.id != id);
  }

  lemma DeleteSaidaRemovesOnlyThatId(s: State, id: int)
    requires FindSaida(s.saidas, id).Some?
    ensures var r := DeleteSaida(s, id, true);
      && r.Ok?
      && SubsequenceOf(r.state.saidas, s.saidas)
      && (forall i :: 0 <= i < |r.state.saidas| ==> r.state.saidas[i].id != id)
      && (forall i :: 0 <= i < |s.saidas| && s.saidas[i].id != id ==> s.saidas[i] in r.state.saidas)
  {
    FilterIsSubsequence(s.saidas, (x: Saida) => x.id != id);
  }

  // ----- the balance between stock and recorded flow -----

  lemma PostEntradaKeepsBalance(s: State, typedName: string, quantity: int, location: string, category: string,
                                date: string, today: string, id: int)
    ensures Balance(After(s, PostEntrada(s, typedName, quantity, location, category, date, today, id))) == Balance(s)
  {
    PostEntradaEffect(s, typedName, quantity, location, category, date, today, id);
    var record := Entrada(id, Trim(typedName), quantity, date);
    SumOfAppend(s.entradas, [record], EntradaQuantity);
    SumOfSingleton(record, EntradaQuantity);
  }

  lemma PostSaidaKeepsBalance(s: State, typedName: string, quantity: int, date: string, observation: string, id: int)
    ensures Balance(After(s, PostSaida(s, typedName, quantity, date, observation, id))) == Balance(s)
  {
    var r := PostSaida(s, typedName, quantity, date, observation, id);
    if r.Ok? {
      var k := FindByFold(s.items, Trim(typedName)).value;
      var record := Saida(id, Trim(typedName), quantity, date, observation);
      SumOfUpdate(s.items, k, r.state.items[k], ItemQuantity);
      SumOfAppend(s.saidas, [record], SaidaQuantity);
      SumOfSingleton(record, SaidaQuantity);
    }
  }

  /** An entrada edit keeps the balance when the record's name resolves to
      an item exactly; otherwise the balance moves by the whole difference. */
  lemma EditEntradaBalance(s: State, id: int, newQuantity: int, newDate: string, e: nat)
    requires FindEntrada(s.entradas, id) == Some(e)
    ensures var record := s.entradas[e];
      Balance(After(s, EditEntrada(s, id, newQuantity, newDate)))
        == Balance(s) - (if FindByName(s.items, record.itemName).Some? then 0 else newQuantity - record.quantity)
  {
    var record := s.entradas[e];
    SumOfUpdate(s.entradas, e, record.(quantity := newQuantity, date := newDate), EntradaQuantity);
  }

  lemma DeleteEntradaBalance(s: State, id: int, e: nat)
    requires Valid(s) && FindEntrada(s.entradas, id) == Some(e)
    ensures var record := s.entradas[e];
      Balance(After(s, DeleteEntrada(s, id, true)))
        == Balance(s) + (if FindByName(s.items, record.itemName).Some? then 0 else s.entradas[e].quantity)
  {
    DeleteEntradaEffect(s, id, e);
    SumOfRemove(s.entradas, e, EntradaQuantity);
  }

  lemma EditSaidaKeepsBalance(s: State, id: int, newQuantity: int, newObservation: string, newDate: string)
    ensures Balance(After(s, EditSaida(s, id, newQuantity, newObservation, newDate))) == Balance(s)
  {
    var r := EditSaida(s, id, newQuantity, newObservation, newDate);
    if r.Ok? {
      var e := FindSaida(s.saidas, id).value;
      var record := s.saidas[e];
      var k := FindByName(s.items, record.itemName).value;
      SumOfUpdate(s.items, k, r.state.items[k], ItemQuantity);
      SumOfUpdate(s.saidas, e, r.state.saidas[e], SaidaQuantity);
    }
  }

  lemma DeleteSaidaBalance(s: State, id: int, e: nat)
    requires Valid(s) && FindSaida(s.saidas, id) == Some(e)
    ensures var record := s.saidas[e];
      Balance(After(s, DeleteSaida(s, id, true)))
        == Balance(s) - (if FindByName(s.items, record.itemName).Some? then 0 else s.saidas[e].quantity)
  {
    DeleteSaidaEffect(s, id, e);
    SumOfRemove(s.saidas, e, SaidaQuantity);
  }

  // ----- the balance of one product -----

  /** When no two items share a name in any letter case, the stock held
      under `n` is the quantity of the item named `n`, or 0 if there is none. */
  lemma {:induction false} ItemStockIsQuantity(items: seq<StockItem>, n: string)
    requires DistinctKeys(items, FoldedName)
    ensures SumOf(items, StockShare(n))
      == match FindByName(items, n) case Some(k) => items[k].quantity case None => 0
  {
    if items != [] {
      var init := items[..|items| - 1];
      var last := items[|items| - 1];
      assert DistinctKeys(init, FoldedName) by {
        forall i, j | 0 <= i < j < |init| ensures FoldedName(init[i]) != FoldedName(init[j]) {
          assert init[i] == items[i] && init[j] == items[j];
        }
      }
      ItemStockIsQuantity(init, n);
      if last.name == n {
        forall j | 0 <= j < |init| ensures init[j].name != n {
          assert FoldedName(items[j]) != FoldedName(last);
        }
        assert FindByName(init, n).None?;
        assert FindByName(items, n) == Some(|items| - 1);
      } else {
        match FindByName(init, n)
        case None =>
          assert FindByName(items, n).None?;
        case Some(k) =>
          assert items[k].name == n;
          assert FindByName(items, n) == Some(k);
      }
    }
  }

  /** An entrada for an item matched exactly, or one that creates the item,
      keeps the balance of every product. */
  lemma PostEntradaKeepsItemBalance(s: State, typedName: string, quantity: int, location: string, category: string,
                                    date: string, today: string, id: int, n: string)
    requires match FindByFold(s.items, Trim(typedName))
      case None => true
      case Some(k) => s.items[k].name == Trim(typedName)
    ensures ItemBalance(After(s, PostEntrada(s, typedName, quantity, location, category, date, today, id)), n)
      == ItemBalance(s, n)
  {
    var r := PostEntrada(s, typedName, quantity, location, category, date, today, id);
    PostEntradaEffect(s, typedName, quantity, location, category, date, today, id);
    if r.Ok? {
      var name := Trim(typedName);
      var record := Entrada(id, name, quantity, date);
      SumOfAppend(s.entradas, [record], EntradaShare(n));
      SumOfSingleton(record, EntradaShare(n));
      match FindByFold(s.items, name)
      case Some(k) =>
        SumOfUpdate(s.items, k, r.state.items[k], StockShare(n));
      case None =>
        var added := StockItem(name, quantity, location, category, today);
        SumOfSortBy(s.items + [added], ItemKey, StockShare(n));
        SumOfAppend(s.items, [added], StockShare(n));
        SumOfSingleton(added, StockShare(n));
    }
  }

  /** A saída for an item matched exactly keeps the balance of every product. */
  lemma PostSaidaKeepsItemBalance(s: State, typedName: string, quantity: int, date: string, observation: string,
                                  id: int, n: string)
    requires match FindByFold(s.items, Trim(typedName))
      case None => true
      case Some(k) => s.items[k].name == Trim(typedName)
    ensures ItemBalance(After(s, PostSaida(s, typedName, quantity, date, observation, id)), n) == ItemBalance(s, n)
  {
    var r := PostSaida(s, typedName, quantity, date, observation, id);
    if r.Ok? {
      var k := FindByFold(s.items, Trim(typedName)).value;
      var record := Saida(id, Trim(typedName), quantity, date, observation);
      SumOfUpdate(s.items, k, r.state.items[k], StockShare(n));
      SumOfAppend(s.saidas, [record], SaidaShare(n));
      SumOfSingleton(record, SaidaShare(n));
    }
  }

  /** Editing an entrada keeps the balance of every product, except that of
      the record's own name when no item carries that name exactly. */
  lemma EditEntradaItemBalance(s: State, id: int, newQuantity: int, newDate: string, e: nat, n: string)
    requires FindEntrada(s.entradas, id) == Some(e)
    ensures var record := s.entradas[e];
      ItemBalance(After(s, EditEntrada(s, id, newQuantity, newDate)), n)
        == ItemBalance(s, n)
           - (if n == record.itemName && FindByName(s.items, n).None? then newQuantity - record.quantity else 0)
  {
    var record := s.entradas[e];
    var t := EditEntrada(s, id, newQuantity, newDate).state;
    SumOfUpdate(s.entradas, e, record.(quantity := newQuantity, date := newDate), EntradaShare(n));
    match FindByName(s.items, record.itemName)
    case None =>
    case Some(k) =>
      assert t.items == s.items[k := t.items[k]];
      SumOfUpdate(s.items, k, t.items[k], StockShare(n));
  }

  /** Deleting an entrada keeps the balance of every product, except that of
      the record's own name when no item carries that name exactly. */
  lemma DeleteEntradaItemBalance(s: State, id: int, e: nat, n: string)
    requires Valid(s) && FindEntrada(s.entradas, id) == Some(e)
    ensures var record := s.entradas[e];
      ItemBalance(After(s, DeleteEntrada(s, id, true)), n)
        == ItemBalance(s, n) + (if n == record.itemName && FindByName(s.items, n).None? then record.quantity else 0)
  {
    var record := s.entradas[e];
    var t := DeleteEntrada(s, id, true).state;
    DeleteEntradaEffect(s, id, e);
    SumOfRemove(s.entradas, e, EntradaShare(n));
    match FindByName(s.items, record.itemName)
    case None =>
    case Some(k) =>
      assert t.items == s.items[k := t.items[k]];
      SumOfUpdate(s.items, k, t.items[k], StockShare(n));
  }

  /** An accepted saída edit keeps the balance of every product. */
  lemma EditSaidaKeepsItemBalance(s: State, id: int, newQuantity: int, newObservation: string, newDate: string,
                                  n: string)
    ensures ItemBalance(After(s, EditSaida(s, id, newQuantity, newObservation, newDate)), n) == ItemBalance(s, n)
  {
    var r := EditSaida(s, id, newQuantity, newObservation, newDate);
    if r.Ok? {
      var e := FindSaida(s.saidas, id).value;
      var record := s.saidas[e];
      var k := FindByName(s.items, record.itemName).value;
      SumOfUpdate(s.items, k, r.state.items[k], StockShare(n));
      SumOfUpdate(s.saidas, e, r.state.saidas[e], SaidaShare(n));
    }
  }

  /** Deleting a saída keeps the balance of every product, except that of
      the record's own name when no item carries that name exactly. */
  lemma DeleteSaidaItemBalance(s: State, id: int, e: nat, n: string)
    requires Valid(s) && FindSaida(s.saidas, id) == Some(e)
    ensures var record := s.saidas[e];
      ItemBalance(After(s, DeleteSaida(s, id, true)), n)
        == ItemBalance(s, n) - (if n == record.itemName && FindByName(s.items, n).None? then record.quantity else 0)
  {
    var record := s.saidas[e];
    var t := DeleteSaida(s, id, true).state;
    DeleteSaidaEffect(s, id, e);
    SumOfRemove(s.saidas, e, SaidaShare(n));
    match FindByName(s.items, record.itemName)
    case None =>
    case Some(k) =>
      assert t.items == s.items[k := t.items[k]];
      SumOfUpdate(s.items, k, t.items[k], StockShare(n));
  }

  // ----- round trips -----

  /** A record appended last under a fresh id is the one `find` returns for
      that id, and filtering that id out gives the earlier history back. */
  lemma DropFreshEntrada(entradas: seq<Entrada>, record: Entrada, id: int)
    requires record.id == id && forall j :: 0 <= j < |entradas| ==> entradas[j].id != id
    ensures FindEntrada(entradas + [record], id) == Some(|entradas|)
    ensures Filter(entradas + [record], (x: Entrada) => x.id != id) == entradas
  {
    var t := entradas + [record];
    forall j | 0 <= j < |entradas| ensures t[j].id != id {
      assert t[j] == entradas[j];
    }
    FilterOutOne(t, |entradas|, (x: Entrada) => x.id != id);
    assert t[..|entradas|] == entradas;
  }

  lemma DropFreshSaida(saidas: seq<Saida>, record: Saida, id: int)
    requires record.id == id && forall j :: 0 <= j < |saidas| ==> saidas[j].id != id
    ensures FindSaida(saidas + [record], id) == Some(|saidas|)
    ensures Filter(saidas + [record], (x: Saida) => x.id != id) == saidas
  {
    var t := saidas + [record];
    forall j | 0 <= j < |saidas| ensures t[j].id != id {
      assert t[j] == saidas[j];
    }
    FilterOutOne(t, |saidas|, (x: Saida) => x.id != id);
    assert t[..|saidas|] == saidas;
  }

  /** A confirmed delete of a listed entrada is accepted, leaves the saídas
      and the locations alone, filters out every record with that id, and
      takes the found record's quantity off the exactly-named item. */
  lemma DeleteEntradaAt(s: State, id: int, e: nat, record: Entrada)
    requires FindEntrada(s.entradas, id) == Some(e) && s.entradas[e] == record
    ensures var r := DeleteEntrada(s, id, true);
      && r.Ok? && r.state.saidas == s.saidas && r.state.locations == s.locations
      && r.state.entradas == Filter(s.entradas, (x: Entrada) => x.id != id)
      && r.state.items == AdjustExact(s.items, record.itemName, -record.quantity)
  {
    assert -s.entradas[e].quantity == -record.quantity;
  }

  /** Deleting the record appended last under a fresh id gives the earlier
      history back and takes its quantity off the exactly-named item. */
  lemma DeleteLastEntrada(t: State, entradas: seq<Entrada>, record: Entrada)
    requires t.entradas == entradas + [record]
    requires forall j :: 0 <= j < |entradas| ==> entradas[j].id != record.id
    ensures var r := DeleteEntrada(t, record.id, true);
      && r.Ok? && r.state.entradas == entradas && r.state.saidas == t.saidas && r.state.locations == t.locations
      && r.state.items == AdjustExact(t.items, record.itemName, -record.quantity)
  {
    DropFreshEntrada(entradas, record, record.id);
    assert t.entradas[|entradas|] == record;
    DeleteEntradaAt(t, record.id, |entradas|, record);
  }

  lemma DeleteLastSaida(t: State, saidas: seq<Saida>, record: Saida)
    requires t.saidas == saidas + [record]
    requires forall j :: 0 <= j < |saidas| ==> saidas[j].id != record.id
    ensures var r := DeleteSaida(t, record.id, true);
      && r.Ok? && r.state.saidas == saidas && r.state.entradas == t.entradas && r.state.locations == t.locations
      && r.state.items == AdjustExact(t.items, record.itemName, record.quantity)
  {
    DropFreshSaida(saidas, record, record.id);
    assert FindSaida(t.saidas, record.id) == Some(|saidas|);
    assert t.saidas[|saidas|] == record;
    assert DeleteSaida(t, record.id, true)
        == Ok(t.(items := AdjustExact(t.items, record.itemName, record.quantity), saidas := saidas));
  }

  /** An entrada accepted under a name that is exactly its item's name
      (or that names no item yet) leaves an item of exactly that name. */
  lemma PostEntradaNamesItem(s: State, typedName: string, quantity: int, location: string, category: string,
                             date: string, today: string, id: int)
    requires Trim(typedName) != []
    requires match FindByFold(s.items, Trim(typedName))
      case None => true
      case Some(k) => s.items[k].name == Trim(typedName)
    ensures FindByName(PostEntrada(s, typedName, quantity, location, category, date, today, id).state.items, Trim(typedName)).Some?
  {
    var name := Trim(typedName);
    var items1 := PostEntrada(s, typedName, quantity, location, category, date, today, id).state.items;
    match FindByFold(s.items, name)
    case Some(k) =>
      PostEntradaToExisting(s, typedName, quantity, location, category, date, today, id, k);
      assert items1[k].name == name;
    case None =>
      PostEntradaNewItem(s, typedName, quantity, location, category, date, today, id);
      var added := StockItem(name, quantity, location, category, today);
      assert added in multiset(items1);
      var j :| 0 <= j < |items1| && items1[j] == added;
      assert items1[j].name == name;
  }

  /** Recording an entrada for an item matched exactly and deleting it gives
      the item back its quantity; only the location the form chose stays. */
  lemma PostThenDeleteEntradaToExisting(s: State, typedName: string, quantity: int, location: string,
                                        category: string, date: string, today: string, id: int, k: nat)
    requires Trim(typedName) != [] && FreshEntradaId(s, id)
    requires FindByFold(s.items, Trim(typedName)) == Some(k) && s.items[k].name == Trim(typedName)
    ensures var s1 := After(s, PostEntrada(s, typedName, quantity, location, category, date, today, id));
      After(s1, DeleteEntrada(s1, id, true)).items == s.items[k := s.items[k].(location := location)]
  {
    var name := Trim(typedName);
    var record := Entrada(id, name, quantity, date);
    PostEntradaEffect(s, typedName, quantity, location, category, date, today, id);
    PostEntradaToExisting(s, typedName, quantity, location, category, date, today, id, k);
    var s1 := PostEntrada(s, typedName, quantity, location, category, date, today, id).state;
    DeleteLastEntrada(s1, s.entradas, record);
    assert FindByName(s1.items, name) == Some(k) by {
      forall j | 0 <= j < k ensures s1.items[j].name != name {
        assert s1.items[j] == s.items[j];
        assert Fold(s1.items[j].name) != Fold(name);
      }
      assert s1.items[k].name == name;
    }
    var items2 := AdjustExact(s1.items, record.itemName, -record.quantity);
    var expected := s.items[k := s.items[k].(location := location)];
    assert items2 == expected by {
      forall j | 0 <= j < |s.items| ensures items2[j] == expected[j] {
        if j != k {
          assert items2[j] == s1.items[j];
        }
      }
    }
    assert After(s1, DeleteEntrada(s1, id, true)).items == items2;
  }

  /** Taking an added item's quantity back out of a list that holds it
      and the old items, none of them under its name, leaves it at 0. */
  lemma EmptyAddedItem(items: seq<StockItem>, grown: seq<StockItem>, name: string, quantity: int,
                       location: string, category: string, today: string, shrunk: seq<StockItem>)
    requires multiset(grown) == multiset(items) + multiset{StockItem(name, quantity, location, category, today)}
    requires forall m :: 0 <= m < |items| ==> items[m].name != name
    requires shrunk == AdjustExact(grown, name, -quantity)
    ensures multiset(shrunk) == multiset(items) + multiset{StockItem(name, 0, location, category, today)}
  {
    var added := StockItem(name, quantity, location, category, today);
    var emptied := StockItem(name, 0, location, category, today);
    assert added in multiset(grown);
    assert grown[0..|grown|] == grown;
    var j := FindByName(grown, name).value;
    assert grown[j] == added by {
      assert grown[j] in multiset(items) + multiset{added};
      forall m | 0 <= m < |items| ensures items[m] != grown[j] { }
    }
    assert shrunk == grown[j := emptied] by {
      forall i | 0 <= i < |shrunk| ensures shrunk[i] == grown[j := emptied][i] {
        if i != j {
          assert shrunk[i] == grown[i];
        }
      }
    }
    calc {
      multiset(shrunk);
      multiset(grown) - multiset{added} + multiset{emptied};
      multiset(items) + multiset{emptied};
    }
  }

  /** Deleting the last entrada, whose item was added to `items` by it,
      leaves that item at quantity 0. */
  lemma DeleteNewEntrada(t: State, entradas: seq<Entrada>, items: seq<StockItem>, record: Entrada,
                         location: string, category: string, today: string)
    requires t.entradas == entradas + [record]
    requires forall j :: 0 <= j < |entradas| ==> entradas[j].id != record.id
    requires multiset(t.items) == multiset(items) + multiset{StockItem(record.itemName, record.quantity, location, category, today)}
    requires forall m :: 0 <= m < |items| ==> items[m].name != record.itemName
    ensures var r := DeleteEntrada(t, record.id, true);
      && r.Ok?
      && multiset(r.state.items) == multiset(items) + multiset{StockItem(record.itemName, 0, location, category, today)}
  {
    var shrunk := AdjustExact(t.items, record.itemName, -record.quantity);
    DeleteLastEntrada(t, entradas, record);
    assert DeleteEntrada(t, record.id, true).state.items == shrunk;
    EmptyAddedItem(items, t.items, record.itemName, record.quantity, location, category, today, shrunk);
    assert multiset(shrunk) == multiset(items) + multiset{StockItem(record.itemName, 0, location, category, today)};
  }

  /** Recording an entrada that creates an item and deleting it leaves the
      new item in the stock list, at quantity 0. */
  lemma PostThenDeleteEntradaNewItem(s: State, typedName: string, quantity: int, location: string,
                                     category: string, date: string, today: string, id: int)
    requires Trim(typedName) != [] && FreshEntradaId(s, id)
    requires FindByFold(s.items, Trim(typedName)).None?
    ensures var s1 := After(s, PostEntrada(s, typedName, quantity, location, category, date, today, id));
      multiset(After(s1, DeleteEntrada(s1, id, true)).items)
        == multiset(s.items) + multiset{StockItem(Trim(typedName), 0, location, category, today)}
  {
    var name := Trim(typedName);
    var record := Entrada(id, name, quantity, date);
    PostEntradaEffect(s, typedName, quantity, location, category, date, today, id);
    PostEntradaNewItem(s, typedName, quantity, location, category, date, today, id);
    var s1 := PostEntrada(s, typedName, quantity, location, category, date, today, id).state;
    forall m | 0 <= m < |s.items| ensures s.items[m].name != name {
      assert Fold(s.items[m].name) != Fold(name);
    }
    DeleteNewEntrada(s1, s.entradas, s.items, record, location, category, today);
  }

  /** Recording an entrada and then deleting it restores both histories and
      the locations. When the typed name matched an item exactly, that item
      has its quantity back (its location is the form's); when the entrada
      created the item, it remains at quantity 0. */
  lemma PostThenDeleteEntrada(s: State, typedName: string, quantity: int, location: string, category: string,
                              date: string, today: string, id: int)
    requires Trim(typedName) != [] && FreshEntradaId(s, id)
    requires match FindByFold(s.items, Trim(typedName))
      case None => true
      case Some(k) => s.items[k].name == Trim(typedName)
    ensures var s1 := After(s, PostEntrada(s, typedName, quantity, location, category, date, today, id));
      var s2 := After(s1, DeleteEntrada(s1, id, true));
      && s2.entradas == s.entradas && s2.saidas == s.saidas && s2.locations == s.locations
      && TotalStock(s2.items) == TotalStock(s.items)
      && match FindByFold(s.items, Trim(typedName))
         case Some(k) => s2.items == s.items[k := s.items[k].(location := location)]
         case None => multiset(s2.items) == multiset(s.items) + multiset{StockItem(Trim(typedName), 0, location, category, today)}
  {
    var name := Trim(typedName);
    var record := Entrada(id, name, quantity, date);
    PostEntradaEffect(s, typedName, quantity, location, category, date, today, id);
    var s1 := PostEntrada(s, typedName, quantity, location, category, date, today, id).state;
    DeleteLastEntrada(s1, s.entradas, record);
    PostEntradaNamesItem(s, typedName, quantity, location, category, date, today, id);
    match FindByFold(s.items, name)
    case Some(k) =>
      PostThenDeleteEntradaToExisting(s, typedName, quantity, location, category, date, today, id, k);
    case None =>
      PostThenDeleteEntradaNewItem(s, typedName, quantity, location, category, date, today, id);
  }

  /** Recording a saída and then deleting it restores the whole state when
      the typed name is exactly the matched item's name. */
  lemma PostThenDeleteSaida(s: State, typedName: string, quantity: int, date: string, observation: string, id: int)
    requires FreshSaidaId(s, id)
    requires match FindByFold(s.items, Trim(typedName))
      case None => false
      case Some(k) => s.items[k].name == Trim(typedName) && s.items[k].quantity >= quantity
    ensures var s1 := After(s, PostSaida(s, typedName, quantity, date, observation, id));
      After(s1, DeleteSaida(s1, id, true)) == s
  {
    var name := Trim(typedName);
    var k := FindByFold(s.items, name).value;
    var record := Saida(id, name, quantity, date, observation);
    PostSaidaEffect(s, typedName, quantity, date, observation, id);
    var s1 := PostSaida(s, typedName, quantity, date, observation, id).state;
    DeleteLastSaida(s1, s.saidas, record);
    assert FindByName(s1.items, name) == Some(k) by {
      forall j | 0 <= j < k ensures s1.items[j].name != name {
        assert s1.items[j] == s.items[j];
        assert Fold(s1.items[j].name) != Fold(name);
      }
      assert s1.items[k].name == name;
    }
    var items2 := AdjustExact(s1.items, name, quantity);
    assert items2 == s.items by {
      forall j | 0 <= j < |s.items| ensures items2[j] == s.items[j] {
        if j != k {
          assert items2[j] == s1.items[j];
        }
      }
    }
  }

  const caseStart := State([StockItem("Produto X", 120, "A1", "Consumo", "2023-11-15")], ["A1"], [], [])
  const caseTyped := "produto x"

  lemma CaseMismatchedEntradaIsNotReversed()
    ensures var s1 := After(caseStart, PostEntrada(caseStart, caseTyped, 10, "A1", "Consumo", "2023-12-01", "2023-12-01", 1));
      var s2 := After(s1, DeleteEntrada(s1, 1, true));
      && |s1.items| == 1 && |s1.entradas| == 1 && |s2.items| == 1
      && s1.items[0].quantity == 130 && s1.entradas[0].itemName == caseTyped
      && s2.entradas == [] && s2.items[0].quantity == 130
  {
    var s := caseStart;
    var typed := caseTyped;
    assert typed[0] == 'p' && typed[|typed| - 1] == 'x';
    assert SkipSpaces(typed, 0) == 0;
    assert SkipSpacesBack(typed, 0, |typed|) == |typed|;
    assert Trim(typed) == typed;
    assert Fold("Produto X") == Fold(typed);
    assert FindByFold(s.items, typed) == Some(0);
    var items1 := [StockItem("Produto X", 130, "A1", "Consumo", "2023-11-15")];
    var s1 := s.(items := items1, entradas := [Entrada(1, typed, 10, "2023-12-01")]);
    assert PostEntrada(s, typed, 10, "A1", "Consumo", "2023-12-01", "2023-12-01", 1) == Ok(s1);
    assert FindByName(items1, typed).None? by {
      assert items1[0].name != typed by { assert items1[0].name[0] != typed[0]; }
    }
    assert FindEntrada(s1.entradas, 1) == Some(0);
    assert AdjustExact(items1, typed, -10) == items1;
    assert Filter(s1.entradas, (x: Entrada) => x.id != 1) == [];
  }

  /** The same entrada moves 10 units of balance from the product's own
      name to the name as typed. */
  lemma CaseMismatchedEntradaShiftsItemBalance()
    ensures var s1 := After(caseStart, PostEntrada(caseStart, caseTyped, 10, "A1", "Consumo", "2023-12-01", "2023-12-01", 1));
      && ItemBalance(s1, "Produto X") == ItemBalance(caseStart, "Produto X") + 10
      && ItemBalance(s1, caseTyped) == ItemBalance(caseStart, caseTyped) - 10
  {
    var s := caseStart;
    var typed := caseTyped;
    assert typed[0] == 'p' && typed[|typed| - 1] == 'x';
    assert SkipSpaces(typed, 0) == 0;
    assert SkipSpacesBack(typed, 0, |typed|) == |typed|;
    assert Trim(typed) == typed;
    assert Fold("Produto X") == Fold(typed);
    assert FindByFold(s.items, typed) == Some(0);
    var item1 := StockItem("Produto X", 130, "A1", "Consumo", "2023-11-15");
    var record := Entrada(1, typed, 10, "2023-12-01");
    var s1 := s.(items := [item1], entradas := [record]);
    assert PostEntrada(s, typed, 10, "A1", "Consumo", "2023-12-01", "2023-12-01", 1) == Ok(s1);
    assert "Produto X" != typed by { assert "Produto X"[0] != typed[0]; }
    SumOfSingleton(s.items[0], StockShare("Produto X"));
    SumOfSingleton(s.items[0], StockShare(typed));
    SumOfSingleton(item1, StockShare("Produto X"));
    SumOfSingleton(item1, StockShare(typed));
    SumOfSingleton(record, EntradaShare("Produto X"));
    SumOfSingleton(record, EntradaShare(typed));
  }

  /** Entrada deletes and edits have no stock guard: an item can be driven
      below zero (after 50 in, 45 out, deleting the entrada leaves -45). */
  lemma DeleteEntradaCanGoNegative()
    ensures var s := State([StockItem("A", 5, "L", "Consumo", "2023-12-01")], ["L"],
                           [Entrada(1, "A", 50, "2023-12-01")], [Saida(2, "A", 45, "2023-12-01", "")]);
      && Valid(s)
      && After(s, DeleteEntrada(s, 1, true)).items[0].quantity == -45
  {
  }

  // ----- the record invariant -----

  /** A record with a fresh id and a quantity of at least 1 may be appended. */
  lemma AppendEntradaValid(entradas: seq<Entrada>, record: Entrada)
    requires ValidEntradas(entradas) && record.quantity >= 1
    requires forall i :: 0 <= i < |entradas| ==> entradas[i].id != record.id
    ensures ValidEntradas(entradas + [record])
  {
    var t := entradas + [record];
    forall i, j | 0 <= i < j < |t| ensures t[i].id != t[j].id {
      assert t[i] == entradas[i];
    }
  }

  lemma AppendSaidaValid(saidas: seq<Saida>, record: Saida)
    requires ValidSaidas(saidas) && record.quantity >= 1
    requires forall i :: 0 <= i < |saidas| ==> saidas[i].id != record.id
    ensures ValidSaidas(saidas + [record])
  {
    var t := saidas + [record];
    forall i, j | 0 <= i < j < |t| ensures t[i].id != t[j].id {
      assert t[i] == saidas[i];
    }
  }

  lemma RemoveEntradaValid(entradas: seq<Entrada>, e: nat)
    requires ValidEntradas(entradas) && e < |entradas|
    ensures ValidEntradas(entradas[..e] + entradas[e + 1..])
  {
    var t := entradas[..e] + entradas[e + 1..];
    forall i | 0 <= i < |t| ensures t[i] == entradas[if i < e then i else i + 1] {
    }
  }

  lemma RemoveSaidaValid(saidas: seq<Saida>, e: nat)
    requires ValidSaidas(saidas) && e < |saidas|
    ensures ValidSaidas(saidas[..e] + saidas[e + 1..])
  {
    var t := saidas[..e] + saidas[e + 1..];
    forall i | 0 <= i < |t| ensures t[i] == saidas[if i < e then i else i + 1] {
    }
  }

  lemma PostEntradaKeepsValid(s: State, typedName: string, quantity: int, location: string, category: string,
                              date: string, today: string, id: int)
    requires Valid(s) && FreshEntradaId(s, id) && quantity >= 1
    ensures Valid(After(s, PostEntrada(s, typedName, quantity, location, category, date, today, id)))
  {
    var r := PostEntrada(s, typedName, quantity, location, category, date, today, id);
    PostEntradaEffect(s, typedName, quantity, location, category, date, today, id);
    if r.Ok? {
      AppendEntradaValid(s.entradas, Entrada(id, Trim(typedName), quantity, date));
    }
  }

  lemma EditEntradaKeepsValid(s: State, id: int, newQuantity: int, newDate: string)
    requires Valid(s) && newQuantity >= 1
    ensures Valid(After(s, EditEntrada(s, id, newQuantity, newDate)))
  {
  }

  lemma DeleteEntradaKeepsValid(s: State, id: int, confirmed: bool)
    requires Valid(s)
    ensures Valid(After(s, DeleteEntrada(s, id, confirmed)))
  {
    if confirmed && FindEntrada(s.entradas, id).Some? {
      var e := FindEntrada(s.entradas, id).value;
      DeleteEntradaEffect(s, id, e);
      RemoveEntradaValid(s.entradas, e);
    }
  }

  lemma PostSaidaKeepsValid(s: State, typedName: string, quantity: int, date: string, observation: string, id: int)
    requires Valid(s) && FreshSaidaId(s, id) && quantity >= 1
    ensures Valid(After(s, PostSaida(s, typedName, quantity, date, observation, id)))
  {
    var r := PostSaida(s, typedName, quantity, date, observation, id);
    PostSaidaEffect(s, typedName, quantity, date, observation, id);
    if r.Ok? {
      AppendSaidaValid(s.saidas, Saida(id, Trim(typedName), quantity, date, observation));
    }
  }

  lemma EditSaidaKeepsValid(s: State, id: int, newQuantity: int, newObservation: string, newDate: string)
    requires Valid(s) && newQuantity >= 1
    ensures Valid(After(s, EditSaida(s, id, newQuantity, newObservation, newDate)))
  {
  }

  lemma DeleteSaidaKeepsValid(s: State, id: int, confirmed: bool)
    requires Valid(s)
    ensures Valid(After(s, DeleteSaida(s, id, confirmed)))
  {
    if confirmed && FindSaida(s.saidas, id).Some? {
      var e := FindSaida(s.saidas, id).value;
      DeleteSaidaEffect(s, id, e);
      RemoveSaidaValid(s.saidas, e);
    }
  }
}
