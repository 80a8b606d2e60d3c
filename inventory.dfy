/** The inventory ledger behind the Entradas, Saídas, Locais and stock-card
    screens: stock items, storage locations, and the entrada (inflow) and
    saída (outflow) records, with every submit and delete handler written as
    a transition from one state to the next. A handler that shows an alert
    or whose confirmation is declined gives `Err` and leaves the state as it
    was. */
module Inventory {
  import opened Text
  import opened Seqs

  datatype StockItem = StockItem(name: string, quantity: int, location: string, category: string, lastUpdated: string)
  datatype Entrada = Entrada(id: int, itemName: string, quantity: int, date: string)
  datatype Saida = Saida(id: int, itemName: string, quantity: int, date: string, observation: string)

  /** `mockStockItems`, `mockLocations`, `mockEntradas` and `mockSaidas`. */
  datatype State = State(items: seq<StockItem>, locations: seq<string>, entradas: seq<Entrada>, saidas: seq<Saida>)

  /** Why a handler changed nothing: the alert it shows, a declined
      confirmation, or a record that is no longer listed. */
  datatype Error = MissingField | DuplicateName | ItemNotFound | RecordNotFound | InsufficientStock | LocationInUse | Cancelled

  datatype Result = Ok(state: State) | Err(error: Error)

  /** The state once a handler has run. */
  function After(s: State, r: Result): State {
    if r.Ok? then r.state else s
  }

  function ItemKey(i: StockItem): string { i.name }
  function Self(l: string): string { l }
  function ItemQuantity(i: StockItem): int { i.quantity }
  function EntradaQuantity(e: Entrada): int { e.quantity }
  function SaidaQuantity(x: Saida): int { x.quantity }

  /** The stock list sorted by item name. */
  function SortItems(items: seq<StockItem>): seq<StockItem> { SortBy(items, ItemKey) }

  /** The location list in its default sort order. */
  function SortLocations(locations: seq<string>): seq<string> { SortBy(locations, Self) }

  // ----- lookups -----

  /** The first item whose name equals `name` ignoring letter case. */
  function FindByFold(items: seq<StockItem>, name: string): (r: Option<nat>)
    ensures r.Some? ==> r.value < |items| && Fold(items[r.value].name) == Fold(name)
    ensures r.Some? ==> forall j :: 0 <= j < r.value ==> Fold(items[j].name) != Fold(name)
    ensures r.None? <==> forall j :: 0 <= j < |items| ==> Fold(items[j].name) != Fold(name)
  {
    FirstIndex(items, (i: StockItem) => Fold(i.name) == Fold(name))
  }

  /** The first item whose name is exactly `name`. */
  function FindByName(items: seq<StockItem>, name: string): (r: Option<nat>)
    ensures r.Some? ==> r.value < |items| && items[r.value].name == name
    ensures r.Some? ==> forall j :: 0 <= j < r.value ==> items[j].name != name
    ensures r.None? <==> forall j :: 0 <= j < |items| ==> items[j].name != name
  {
    FirstIndex(items, (i: StockItem) => i.name == name)
  }

  /** The first entrada with id `id`. */
  function FindEntrada(entradas: seq<Entrada>, id: int): (r: Option<nat>)
    ensures r.Some? ==> r.value < |entradas| && entradas[r.value].id == id
    ensures r.Some? ==> forall j :: 0 <= j < r.value ==> entradas[j].id != id
    ensures r.None? <==> forall j :: 0 <= j < |entradas| ==> entradas[j].id != id
  {
    FirstIndex(entradas, (e: Entrada) => e.id == id)
  }

  /** The first saída with id `id`. */
  function FindSaida(saidas: seq<Saida>, id: int): (r: Option<nat>)
    ensures r.Some? ==> r.value < |saidas| && saidas[r.value].id == id
    ensures r.Some? ==> forall j :: 0 <= j < r.value ==> saidas[j].id != id
    ensures r.None? <==> forall j :: 0 <= j < |saidas| ==> saidas[j].id != id
  {
    FirstIndex(saidas, (x: Saida) => x.id == id)
  }

  /** Some location equals `name` ignoring letter case. */
  predicate LocationTaken(locations: seq<string>, name: string) {
    exists i :: 0 <= i < |locations| && Fold(locations[i]) == Fold(name)
  }

  /** Some item sits at `location` (compared exactly). */
  predicate LocationInUseBy(items: seq<StockItem>, location: string) {
    exists i :: 0 <= i < |items| && items[i].location == location
  }

  // ----- totals and the well-formedness invariant -----

  function TotalStock(items: seq<StockItem>): int { SumOf(items, ItemQuantity) }
  function EntradaTotal(entradas: seq<Entrada>): int { SumOf(entradas, EntradaQuantity) }
  function SaidaTotal(saidas: seq<Saida>): int { SumOf(saidas, SaidaQuantity) }

  /** Stock on hand minus the net flow the ledger records. Every handler
      keeps it, except an edit or delete of a record whose item name no
      longer matches an item exactly. */
  function Balance(s: State): int {
    TotalStock(s.items) - EntradaTotal(s.entradas) + SaidaTotal(s.saidas)
  }

  /** What an item, an entrada and a saída contribute to the balance of the
      product named exactly `n`. */
  function StockShare(n: string): StockItem -> int {
    (i: StockItem) => if i.name == n then i.quantity else 0
  }

  function EntradaShare(n: string): Entrada -> int {
    (e: Entrada) => if e.itemName == n then e.quantity else 0
  }

  function SaidaShare(n: string): Saida -> int {
    (x: Saida) => if x.itemName == n then x.quantity else 0
  }

  /** `Balance` restricted to one product: the stock held under the name
      `n` minus the entradas recorded under `n` plus the saídas recorded
      under `n`. */
  function ItemBalance(s: State, n: string): int {
    SumOf(s.items, StockShare(n)) - SumOf(s.entradas, EntradaShare(n)) + SumOf(s.saidas, SaidaShare(n))
  }

  predicate FreshEntradaId(s: State, id: int) {
    forall i :: 0 <= i < |s.entradas| ==> s.entradas[i].id != id
  }

  predicate FreshSaidaId(s: State, id: int) {
    forall i :: 0 <= i < |s.saidas| ==> s.saidas[i].id != id
  }

  /** Record ids are unique within each history and every recorded quantity
      is at least 1 (the forms' `min: '1'`). */
  predicate Valid(s: State) {
    ValidEntradas(s.entradas) && ValidSaidas(s.saidas)
  }

  predicate ValidEntradas(entradas: seq<Entrada>) {
    && (forall i, j :: 0 <= i < j < |entradas| ==> entradas[i].id != entradas[j].id)
    && (forall i :: 0 <= i < |entradas| ==> entradas[i].quantity >= 1)
  }

  predicate ValidSaidas(saidas: seq<Saida>) {
    && (forall i, j :: 0 <= i < j < |saidas| ==> saidas[i].id != saidas[j].id)
    && (forall i :: 0 <= i < |saidas| ==> saidas[i].quantity >= 1)
  }

  function FoldedName(i: StockItem): string { Fold(i.name) }

  /** No two items and no two locations have names that differ only in
      letter case: what the duplicate checks of the item and location
      forms are there to keep. */
  predicate Catalogued(s: State) {
    DistinctKeys(s.items, FoldedName) && DistinctKeys(s.locations, Fold)
  }

  // ----- in-place updates shared by several handlers -----

  /** The first item named exactly `name`, if there is one, changes its
      quantity by `delta`; every other item is left alone. */
  function AdjustExact(items: seq<StockItem>, name: string, delta: int): (r: seq<StockItem>)
    ensures |r| == |items|
    ensures TotalStock(r) == TotalStock(items) + (if FindByName(items, name).Some? then delta else 0)
    ensures forall j :: 0 <= j < |items| && Some(j) != FindByName(items, name) ==> r[j] == items[j]
    ensures FindByName(items, name).Some? ==>
      var k := FindByName(items, name).value;
      r[k] == items[k].(quantity := items[k].quantity + delta)
  {
    match FindByName(items, name)
    case None => items
    case Some(k) =>
      var r := items[k := items[k].(quantity := items[k].quantity + delta)];
      SumOfUpdate(items, k, r[k], ItemQuantity);
      r
  }

  /** The `forEach` that rewrites `itemName` from `oldName` to `newName` in the entradas. */
  function RenameEntradas(entradas: seq<Entrada>, oldName: string, newName: string): (r: seq<Entrada>)
    ensures |r| == |entradas|
    ensures forall i :: 0 <= i < |r| ==> r[i].id == entradas[i].id && r[i].quantity == entradas[i].quantity && r[i].date == entradas[i].date
    ensures forall i :: 0 <= i < |r| ==> r[i].itemName == if entradas[i].itemName == oldName then newName else entradas[i].itemName
    ensures EntradaTotal(r) == EntradaTotal(entradas)
  {
    var r := seq(|entradas|, i requires 0 <= i < |entradas| =>
      if entradas[i].itemName == oldName then entradas[i].(itemName := newName) else entradas[i]);
    SumOfPointwise(r, EntradaQuantity, entradas, EntradaQuantity);
    r
  }

  /** The `forEach` that rewrites `itemName` from `oldName` to `newName` in the saídas. */
  function RenameSaidas(saidas: seq<Saida>, oldName: string, newName: string): (r: seq<Saida>)
    ensures |r| == |saidas|
    ensures forall i :: 0 <= i < |r| ==> r[i].id == saidas[i].id && r[i].quantity == saidas[i].quantity && r[i].date == saidas[i].date && r[i].observation == saidas[i].observation
    ensures forall i :: 0 <= i < |r| ==> r[i].itemName == if saidas[i].itemName == oldName then newName else saidas[i].itemName
    ensures SaidaTotal(r) == SaidaTotal(saidas)
  {
    var r := seq(|saidas|, i requires 0 <= i < |saidas| =>
      if saidas[i].itemName == oldName then saidas[i].(itemName := newName) else saidas[i]);
    SumOfPointwise(r, SaidaQuantity, saidas, SaidaQuantity);
    r
  }

  /** The `forEach` that moves every item at `oldName` to `newName`. */
  function Relocate(items: seq<StockItem>, oldName: string, newName: string): (r: seq<StockItem>)
    ensures |r| == |items|
    ensures forall i :: 0 <= i < |r| ==> r[i] == items[i].(location := r[i].location)
    ensures forall i :: 0 <= i < |r| ==> r[i].location == if items[i].location == oldName then newName else items[i].location
    ensures TotalStock(r) == TotalStock(items)
  {
    var r := seq(|items|, i requires 0 <= i < |items| =>
      if items[i].location == oldName then items[i].(location := newName) else items[i]);
    SumOfPointwise(r, ItemQuantity, items, ItemQuantity);
    r
  }

  /** Every location equal to `oldName` becomes `newName`, in place. */
  function ReplaceLocation(locations: seq<string>, oldName: string, newName: string): (r: seq<string>)
    ensures |r| == |locations|
    ensures forall i :: 0 <= i < |r| ==> r[i] == if locations[i] == oldName then newName else locations[i]
  {
    seq(|locations|, i requires 0 <= i < |locations| => if locations[i] == oldName then newName else locations[i])
  }

  // ----- the handlers -----

  /** The stock list after `quantity` units of `itemName` arrive: added to
      the item of that name regardless of letter case, which also moves to
      `location`, or else a new item in its sorted place. */
  function Receive(items: seq<StockItem>, itemName: string, quantity: int, location: string,
                   category: string, today: string): seq<StockItem>
  {
    match FindByFold(items, itemName)
    case Some(k) => items[k := items[k].(quantity := items[k].quantity + quantity, location := location)]
    case None => SortItems(items + [StockItem(itemName, quantity, location, category, today)])
  }

  /** Submitting the new-entrada form. */
  function PostEntrada(s: State, typedName: string, quantity: int, location: string, category: string,
                       date: string, today: string, id: int): Result
  {
    var itemName := Trim(typedName);
    if itemName == [] then Err(MissingField)
    else Ok(s.(items := Receive(s.items, itemName, quantity, location, category, today),
               entradas := s.entradas + [Entrada(id, itemName, quantity, date)]))
  }

  /** Submitting the edit form of entrada `id`. */
  function EditEntrada(s: State, id: int, newQuantity: int, newDate: string): Result {
    match FindEntrada(s.entradas, id)
    case None => Err(RecordNotFound)
    case Some(e) =>
      var record := s.entradas[e];
      Ok(s.(items := AdjustExact(s.items, record.itemName, newQuantity - record.quantity),
            entradas := s.entradas[e := record.(quantity := newQuantity, date := newDate)]))
  }

  /** The delete button of entrada `id`; `confirmed` is the answer to `confirm`. */
  function DeleteEntrada(s: State, id: int, confirmed: bool): Result {
    if !confirmed then Err(Cancelled)
    else match FindEntrada(s.entradas, id)
      case None => Err(RecordNotFound)
      case Some(e) =>
        var record := s.entradas[e];
        Ok(s.(items := AdjustExact(s.items, record.itemName, -record.quantity),
              entradas := Filter(s.entradas, (x: Entrada) => x.id != id)))
  }

  /** Submitting the new-saída form. */
  function PostSaida(s: State, typedName: string, quantity: int, date: string, observation: string, id: int): Result {
    var itemName := Trim(typedName);
    match FindByFold(s.items, itemName)
    case None => Err(ItemNotFound)
    case Some(k) =>
      if s.items[k].quantity >= quantity then
        Ok(s.(items := s.items[k := s.items[k].(quantity := s.items[k].quantity - quantity)],
              saidas := s.saidas + [Saida(id, itemName, quantity, date, observation)]))
      else Err(InsufficientStock)
  }

  /** Submitting the edit form of saída `id`. */
  function EditSaida(s: State, id: int, newQuantity: int, newObservation: string, newDate: string): Result {
    match FindSaida(s.saidas, id)
    case None => Err(RecordNotFound)
    case Some(e) =>
      var record := s.saidas[e];
      match FindByName(s.items, record.itemName)
      case None => Err(ItemNotFound)
      case Some(k) =>
        var diff := newQuantity - record.quantity;
        if s.items[k].quantity >= diff then
          Ok(s.(items := s.items[k := s.items[k].(quantity := s.items[k].quantity - diff)],
                saidas := s.saidas[e := record.(quantity := newQuantity, date := newDate, observation := newObservation)]))
        else Err(InsufficientStock)
  }

  /** The delete button of saída `id`. */
  function DeleteSaida(s: State, id: int, confirmed: bool): Result {
    if !confirmed then Err(Cancelled)
    else match FindSaida(s.saidas, id)
      case None => Err(RecordNotFound)
      case Some(e) =>
        var record := s.saidas[e];
        Ok(s.(items := AdjustExact(s.items, record.itemName, record.quantity),
              saidas := Filter(s.saidas, (x: Saida) => x.id != id)))
  }

  /** The new name differs from the old one other than in letter case, and
      some item already has it ignoring case. */
  predicate RenameCollides(items: seq<StockItem>, oldName: string, newName: string) {
    Fold(newName) != Fold(oldName) && FindByFold(items, newName).Some?
  }

  /** Submitting the edit form of the stock card for `oldName`. */
  function EditItem(s: State, oldName: string, typedName: string, typedCategory: string,
                    newLocation: string, newLastUpdated: string): Result
  {
    var newName := Trim(typedName);
    var newCategory := Trim(typedCategory);
    if newName == [] || newCategory == [] || newLocation == [] || newLastUpdated == [] then Err(MissingField)
    else if RenameCollides(s.items, oldName, newName) then Err(DuplicateName)
    else
      var items := match FindByName(s.items, oldName)
        case None => s.items
        case Some(k) => s.items[k := StockItem(newName, s.items[k].quantity, newLocation, newCategory, newLastUpdated)];
      if newName != oldName then
        Ok(s.(items := items, entradas := RenameEntradas(s.entradas, oldName, newName),
              saidas := RenameSaidas(s.saidas, oldName, newName)))
      else Ok(s.(items := items))
  }

  /** Submitting the add-location form. */
  function AddLocation(s: State, typedName: string): Result {
    var name := Trim(typedName);
    if name == [] then Err(MissingField)
    else if LocationTaken(s.locations, name) then Err(DuplicateName)
    else Ok(s.(locations := SortLocations(s.locations + [name])))
  }

  /** Another location, other than the old one ignoring case, already has
      the new name ignoring case. */
  predicate LocationRenameCollides(locations: seq<string>, oldName: string, newName: string) {
    exists i :: 0 <= i < |locations| && Fold(locations[i]) == Fold(newName) && Fold(locations[i]) != Fold(oldName)
  }

  /** Submitting the inline rename form of location `oldName`. */
  function RenameLocation(s: State, oldName: string, typedName: string): Result {
    var newName := Trim(typedName);
    if newName == [] then Err(MissingField)
    else if LocationRenameCollides(s.locations, oldName, newName) then Err(DuplicateName)
    else Ok(s.(locations := SortLocations(ReplaceLocation(s.locations, oldName, newName)),
               items := Relocate(s.items, oldName, newName)))
  }

  /** The delete button of location `name`. */
  function DeleteLocation(s: State, name: string, confirmed: bool): Result {
    if LocationInUseBy(s.items, name) then Err(LocationInUse)
    else if !confirmed then Err(Cancelled)
    else Ok(s.(locations := Filter(s.locations, (l: string) => l != name)))
  }
}
