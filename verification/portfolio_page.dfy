/** The portfolio page of the web client: the list updates it applies to its
    local copy of the user's portfolios after the server confirms a change,
    the selection it keeps, the checks it makes before sending a request, and
    the value it shows for the selected portfolio. The server round trips are
    parameters: each update takes the record the server answered with. */
module PortfolioPage {
  import opened Wrappers
  import opened Seqs
  import opened Tickers

  datatype Item = Item(id: int, ticker: string, quantity: real, purchasePrice: real)

  /** A portfolio as the server sends it; `items` may be absent. */
  datatype Portfolio = Portfolio(id: int, name: string, items: Option<seq<Item>>)

  /** `calculatePortfolioValue`: 0 for no portfolio or absent items, otherwise
      the sum of quantity times purchase price, accumulated from the left. */
  function PortfolioValue(portfolio: Option<Portfolio>): (r: real)
    ensures portfolio.None? || portfolio.value.items.None? ==> r == 0.0
    ensures portfolio.Some? && portfolio.value.items.Some? && |portfolio.value.items.value| == 1 ==>
      r == portfolio.value.items.value[0].quantity * portfolio.value.items.value[0].purchasePrice
    ensures portfolio.Some? && portfolio.value.items.Some?
      && (forall i :: 0 <= i < |portfolio.value.items.value| ==>
            portfolio.value.items.value[i].quantity >= 0.0 && portfolio.value.items.value[i].purchasePrice >= 0.0)
      ==> r >= 0.0
  {
    if portfolio.None? || portfolio.value.items.None? then 0.0
    else
      var items := portfolio.value.items.value;
      ValueNonNegativeIf(items);
      ValueOfSingle(items);
      ItemsValue(items)
  }

  function ItemsValue(items: seq<Item>): real
  {
    Sum(Costs(items))
  }

  /** Quantity times purchase price, item by item. */
  function Costs(items: seq<Item>): (r: seq<real>)
    ensures |r| == |items|
    ensures forall i :: 0 <= i < |items| ==> r[i] == items[i].quantity * items[i].purchasePrice
  {
    seq(|items|, i requires 0 <= i < |items| => items[i].quantity * items[i].purchasePrice)
  }

  /** The value of a list with one more item grows by that item's cost. */
  lemma ValueOfSnoc(items: seq<Item>, item: Item)
    ensures ItemsValue(items + [item]) == ItemsValue(items) + item.quantity * item.purchasePrice
  {
    var all := items + [item];
    var grown := Costs(items) + [item.quantity * item.purchasePrice];
    forall i | 0 <= i < |all|
      ensures Costs(all)[i] == grown[i]
    {
      if i < |items| {
        assert all[i] == items[i];
      }
    }
    assert Costs(all) == grown;
    SumAppend(Costs(items), [item.quantity * item.purchasePrice]);
  }

  /** A portfolio whose holdings all have non-negative quantity and price is
      worth at least nothing. */
  lemma ValueOfSingle(items: seq<Item>)
    ensures |items| == 1 ==> ItemsValue(items) == items[0].quantity * items[0].purchasePrice
  {
    if |items| == 1 {
      assert items == [] + [items[0]];
      ValueOfSnoc([], items[0]);
    }
  }

  lemma ValueNonNegativeIf(items: seq<Item>)
    ensures (forall i :: 0 <= i < |items| ==> items[i].quantity >= 0.0 && items[i].purchasePrice >= 0.0)
      ==> ItemsValue(items) >= 0.0
  {
    if forall i :: 0 <= i < |items| ==> items[i].quantity >= 0.0 && items[i].purchasePrice >= 0.0 {
      ValueNonNegative(items);
    }
  }

  lemma {:induction false} ValueNonNegative(items: seq<Item>)
    requires forall i :: 0 <= i < |items| ==> items[i].quantity >= 0.0 && items[i].purchasePrice >= 0.0
    ensures ItemsValue(items) >= 0.0
    decreases |items|
  {
    if |items| > 0 {
      var init := items[..|items| - 1];
      ValueNonNegative(init);
      assert items == init + [items[|items| - 1]];
      ValueOfSnoc(init, items[|items| - 1]);
    }
  }

  /** `portfolios.find(p => p.id === id)`: the first portfolio with that id. */
  function Find(portfolios: seq<Portfolio>, id: int): (r: Option<Portfolio>)
    ensures r.None? <==> forall i :: 0 <= i < |portfolios| ==> portfolios[i].id != id
    ensures r.Some? ==> r.value in portfolios && r.value.id == id
    ensures r.Some? ==>
      exists i :: 0 <= i < |portfolios| && portfolios[i] == r.value && (forall j :: 0 <= j < i ==> portfolios[j].id != id)
  {
    if |portfolios| == 0 then None
    else if portfolios[0].id == id then Some(portfolios[0])
    else
      var r := Find(portfolios[1..], id);
      if r.Some? then
        var i :| 0 <= i < |portfolios[1..]| && portfolios[1..][i] == r.value
          && forall j :: 0 <= j < i ==> portfolios[1..][j].id != id;
        assert forall j :: 1 <= j < i + 1 ==> portfolios[j] == portfolios[1..][j - 1];
        assert portfolios[i + 1] == r.value;
        r
      else r
  }

  /** `portfolios.map(p => p.id === selected ? {...p, items: edit(p.items)} : p)`.
      Spreading or mapping absent items throws; the handler's `catch` then
      reports the failure and the list stays as it was, modelled as `None`. */
  function EditSelected(portfolios: seq<Portfolio>, selected: int, edit: seq<Item> -> seq<Item>)
    : (r: Option<seq<Portfolio>>)
    ensures r.None? <==> exists i :: 0 <= i < |portfolios| && portfolios[i].id == selected && portfolios[i].items.None?
    ensures r.Some? ==> |r.value| == |portfolios|
    ensures r.Some? ==> forall i :: 0 <= i < |portfolios| && portfolios[i].id != selected ==> r.value[i] == portfolios[i]
    ensures r.Some? ==> forall i :: 0 <= i < |portfolios| && portfolios[i].id == selected ==>
      r.value[i] == portfolios[i].(items := Some(edit(portfolios[i].items.value)))
  {
    if |portfolios| == 0 then Some([])
    else
      var p := portfolios[0];
      var rest := EditSelected(portfolios[1..], selected, edit);
      if p.id == selected && p.items.None? then
        assert portfolios[0].items.None?;
        None
      else if rest.None? then
        var j :| 0 <= j < |portfolios[1..]| && portfolios[1..][j].id == selected && portfolios[1..][j].items.None?;
        assert portfolios[j + 1] == portfolios[1..][j];
        None
      else
        var head := if p.id == selected then p.(items := Some(edit(p.items.value))) else p;
        assert forall i :: 1 <= i < |portfolios| ==> portfolios[i] == portfolios[1..][i - 1];
        Some([head] + rest.value)
  }

  /** The list update of `handleAddItem`: the item the server created is
      appended to the selected portfolio's items. */
  function AddItem(portfolios: seq<Portfolio>, selected: int, created: Item): (r: Option<seq<Portfolio>>)
    ensures r.None? <==> exists i :: 0 <= i < |portfolios| && portfolios[i].id == selected && portfolios[i].items.None?
    ensures r.Some? ==> |r.value| == |portfolios|
    ensures r.Some? ==> forall i :: 0 <= i < |portfolios| ==>
      r.value[i] == if portfolios[i].id == selected then portfolios[i].(items := Some(portfolios[i].items.value + [created]))
                    else portfolios[i]
  {
    EditSelected(portfolios, selected, items => items + [created])
  }

  /** The items edit of `handleUpdateItem`: every item with the edited id is
      replaced by the server's answer. */
  function ReplaceItem(items: seq<Item>, itemId: int, updated: Item): (r: seq<Item>)
    ensures |r| == |items|
    ensures forall i :: 0 <= i < |items| ==> r[i] == (if items[i].id == itemId then updated else items[i])
  {
    seq(|items|, i requires 0 <= i < |items| => if items[i].id == itemId then updated else items[i])
  }

  /** The list update of `handleUpdateItem`: in the selected portfolio every
      item with the edited id becomes the server's answer, in place. */
  function UpdateItem(portfolios: seq<Portfolio>, selected: int, itemId: int, updated: Item): (r: Option<seq<Portfolio>>)
    ensures r.None? <==> exists i :: 0 <= i < |portfolios| && portfolios[i].id == selected && portfolios[i].items.None?
    ensures r.Some? ==> |r.value| == |portfolios|
    ensures r.Some? ==> forall i :: 0 <= i < |portfolios| && portfolios[i].id != selected ==> r.value[i] == portfolios[i]
    ensures r.Some? ==> forall i, k :: 0 <= i < |portfolios| && portfolios[i].id == selected && 0 <= k < |portfolios[i].items.value| ==>
      && r.value[i].items.Some? && |r.value[i].items.value| == |portfolios[i].items.value|
      && r.value[i].items.value[k] == (if portfolios[i].items.value[k].id == itemId then updated else portfolios[i].items.value[k])
  {
    EditSelected(portfolios, selected, items => ReplaceItem(items, itemId, updated))
  }

  /** The items edit of `handleDeleteItem`: every item with that id goes,
      every other stays. */
  function RemoveItem(items: seq<Item>, itemId: int): (r: seq<Item>)
    ensures forall k :: 0 <= k < |r| ==> r[k].id != itemId && r[k] in items
    ensures forall k :: 0 <= k < |items| && items[k].id != itemId ==> items[k] in r
  {
    Filter(items, (item: Item) => item.id != itemId)
  }

  /** The list update of `handleDeleteItem`: the selected portfolio loses
      the item, the others are untouched. */
  function DeleteItem(portfolios: seq<Portfolio>, selected: int, itemId: int): (r: Option<seq<Portfolio>>)
    ensures r.None? <==> exists i :: 0 <= i < |portfolios| && portfolios[i].id == selected && portfolios[i].items.None?
    ensures r.Some? ==> |r.value| == |portfolios|
    ensures r.Some? ==> forall i :: 0 <= i < |portfolios| && portfolios[i].id != selected ==> r.value[i] == portfolios[i]
    ensures r.Some? ==> FreshItemId(r.value, selected, itemId)
  {
    EditSelected(portfolios, selected, items => RemoveItem(items, itemId))
  }

  /** No item of any portfolio with that id carries `itemId`. */
  predicate FreshItemId(portfolios: seq<Portfolio>, selected: int, itemId: int)
  {
    forall i, k ::
      (0 <= i < |portfolios| && portfolios[i].id == selected && portfolios[i].items.Some? && 0 <= k < |portfolios[i].items.value|)
      ==> portfolios[i].items.value[k].id != itemId
  }

  /** Removing an item with an id the list does not hold leaves it as it was. */
  lemma RemoveAbsent(items: seq<Item>, itemId: int)
    requires forall k :: 0 <= k < |items| ==> items[k].id != itemId
    ensures RemoveItem(items, itemId) == items
  {
    FilterKeepsAll(items, (item: Item) => item.id != itemId);
  }

  /** Deleting the item just added, when its id was new to the portfolio,
      restores the list of portfolios. */
  lemma DeleteUndoesAdd(portfolios: seq<Portfolio>, selected: int, created: Item)
    requires FreshItemId(portfolios, selected, created.id)
    ensures AddItem(portfolios, selected, created).Some? ==>
      DeleteItem(AddItem(portfolios, selected, created).value, selected, created.id) == Some(portfolios)
  {
    var added := AddItem(portfolios, selected, created);
    if added.Some? {
      var after := DeleteItem(added.value, selected, created.id);
      forall i | 0 <= i < |portfolios| && portfolios[i].id == selected
        ensures RemoveItem(added.value[i].items.value, created.id) == portfolios[i].items.value
      {
        var items := portfolios[i].items.value;
        RemoveAbsent(items, created.id);
        FilterSnoc(items, created, (item: Item) => item.id != created.id);
      }
      assert after.Some?;
      assert after.value == portfolios;
    }
  }

  /** Adding an item changes nothing but the selected portfolio; the new
      selection (found again by id) is worth what it was worth plus the cost
      of the added item. */
  lemma AddRaisesValue(portfolios: seq<Portfolio>, selected: int, created: Item)
    requires Find(portfolios, selected).Some?
    ensures var added := AddItem(portfolios, selected, created);
      added.Some? ==>
        PortfolioValue(Find(added.value, selected))
        == PortfolioValue(Find(portfolios, selected)) + created.quantity * created.purchasePrice
    decreases |portfolios|
  {
    var added := AddItem(portfolios, selected, created);
    if added.Some? {
      if portfolios[0].id == selected {
        assert added.value[0] == portfolios[0].(items := Some(portfolios[0].items.value + [created]));
        ValueOfSnoc(portfolios[0].items.value, created);
      } else {
        var rest := AddItem(portfolios[1..], selected, created);
        assert added == Some([portfolios[0]] + rest.value);
        assert ([portfolios[0]] + rest.value)[1..] == rest.value;
        AddRaisesValue(portfolios[1..], selected, created);
      }
    }
  }

  /** When the server keeps the item's id, an update keeps every portfolio's
      item ids as they were, in order. */
  lemma UpdateKeepsIds(portfolios: seq<Portfolio>, selected: int, itemId: int, updated: Item)
    requires updated.id == itemId
    ensures var r := UpdateItem(portfolios, selected, itemId, updated);
      r.Some? ==> forall i, k ::
        (0 <= i < |portfolios| && portfolios[i].items.Some? && 0 <= k < |portfolios[i].items.value|)
        ==> (r.value[i].items.Some? && |r.value[i].items.value| == |portfolios[i].items.value|
             && r.value[i].items.value[k].id == portfolios[i].items.value[k].id)
  {
  }

  /** Updating with the same answer twice is the same as updating once. */
  lemma UpdateIdempotent(portfolios: seq<Portfolio>, selected: int, itemId: int, updated: Item)
    requires updated.id == itemId
    ensures var once := UpdateItem(portfolios, selected, itemId, updated);
      once.Some? ==> UpdateItem(once.value, selected, itemId, updated) == once
  {
    var once := UpdateItem(portfolios, selected, itemId, updated);
    if once.Some? {
      var twice := UpdateItem(once.value, selected, itemId, updated);
      forall i | 0 <= i < |once.value|
        ensures twice.Some? ==> twice.value[i] == once.value[i]
      {
        if portfolios[i].id == selected {
          ReplaceTwice(portfolios[i].items.value, itemId, updated);
        }
      }
      assert twice.Some?;
      assert twice.value == once.value;
    }
  }

  lemma ReplaceTwice(items: seq<Item>, itemId: int, updated: Item)
    requires updated.id == itemId
    ensures ReplaceItem(ReplaceItem(items, itemId, updated), itemId, updated) == ReplaceItem(items, itemId, updated)
  {
  }

  /** After a deletion the selected portfolio holds no item with that id, and
      keeps the others in their order. */
  lemma DeleteRemovesItem(portfolios: seq<Portfolio>, selected: int, itemId: int)
    ensures var r := DeleteItem(portfolios, selected, itemId);
      r.Some? ==> (FreshItemId(r.value, selected, itemId)
        && (forall i :: (0 <= i < |portfolios| && portfolios[i].id == selected)
              ==> r.value[i].items == Some(Filter(portfolios[i].items.value, (item: Item) => item.id != itemId))))
  {
  }

  /** The list and selection after `handleDeletePortfolio`: the portfolio
      leaves the list; if it was selected, the first remaining portfolio is
      selected instead, or nothing when none remains. */
  function DeletePortfolio(portfolios: seq<Portfolio>, selection: Option<Portfolio>, id: int)
    : (r: (seq<Portfolio>, Option<Portfolio>))
    ensures forall i :: 0 <= i < |r.0| ==> r.0[i].id != id && r.0[i] in portfolios
    ensures forall p :: p in portfolios && p.id != id ==> p in r.0
    ensures r.0 == Filter(portfolios, (p: Portfolio) => p.id != id)
    ensures selection.Some? && selection.value.id == id ==>
      (if |r.0| == 0 then r.1 == None else r.1 == Some(r.0[0]))
    ensures selection.Some? && selection.value.id == id && r.1.Some? ==>
      exists i :: 0 <= i < |portfolios| && r.1.value == portfolios[i] && portfolios[i].id != id &&
        (forall j :: 0 <= j < i ==> portfolios[j].id == id)
    ensures !(selection.Some? && selection.value.id == id) ==> r.1 == selection
  {
    var remaining := Filter(portfolios, (p: Portfolio) => p.id != id);
    FilterHead(portfolios, (p: Portfolio) => p.id != id);
    if selection.Some? && selection.value.id == id then
      (remaining, if |remaining| == 0 then None else Some(remaining[0]))
    else
      (remaining, selection)
  }

  /** The list and selection after `handleCreatePortfolio`: a blank name sends
      nothing; otherwise the server's new portfolio is appended and selected. */
  function CreatePortfolio(portfolios: seq<Portfolio>, selection: Option<Portfolio>, name: string, created: Portfolio)
    : (r: (seq<Portfolio>, Option<Portfolio>))
    ensures Blank(name) ==> r == (portfolios, selection)
    ensures !Blank(name) ==> |r.0| == |portfolios| + 1 && r.0[..|portfolios|] == portfolios
    ensures !Blank(name) ==> r.0 == portfolios + [created]
    ensures !Blank(name) ==> r.1 == Some(created) && Find(r.0, created.id).Some?
  {
    if Blank(name) then (portfolios, selection)
    else
      var r := portfolios + [created];
      assert r[|portfolios|] == created;
      (r, Some(created))
  }

  /** The characters JavaScript's `trim` removes that can be typed in a form
      field: space, tab, line breaks, form feed, vertical tab, no-break space. */
  predicate IsSpace(c: char)
  {
    c == ' ' || c == '\t' || c == '\n' || c == '\r' || c == '\U{C}' || c == '\U{B}' || c == '\U{A0}'
  }

  /** Leading whitespace removed. */
  function TrimStart(s: string): (r: string)
    ensures |r| <= |s| && r == s[|s| - |r|..]
    ensures r == "" || !IsSpace(r[0])
  {
    if |s| > 0 && IsSpace(s[0]) then TrimStart(s[1..]) else s
  }

  /** Trailing whitespace removed. */
  function TrimEnd(s: string): (r: string)
    ensures |r| <= |s| && r == s[..|r|]
    ensures r == "" || !IsSpace(r[|r| - 1])
  {
    if |s| > 0 && IsSpace(s[|s| - 1]) then TrimEnd(s[..|s| - 1]) else s
  }

  /** `name.trim()`. */
  function Trim(name: string): string
  {
    TrimEnd(TrimStart(name))
  }

  /** `!name.trim()`: the name is empty once whitespace is trimmed. */
  predicate Blank(name: string)
  {
    Trim(name) == ""
  }

  /** A name is blank exactly when every character of it is whitespace. */
  lemma BlankIffAllSpace(name: string)
    ensures Blank(name) <==> forall i :: 0 <= i < |name| ==> IsSpace(name[i])
  {
    TrimStartEmptyIffAllSpace(name);
    var t := TrimStart(name);
    TrimEndEmptyIffAllSpace(t);
    if t != "" {
      assert !IsSpace(t[0]);
    }
  }

  lemma {:induction false} TrimStartEmptyIffAllSpace(s: string)
    ensures TrimStart(s) == "" <==> forall i :: 0 <= i < |s| ==> IsSpace(s[i])
  {
    if |s| > 0 && IsSpace(s[0]) {
      TrimStartEmptyIffAllSpace(s[1..]);
      assert forall i :: 1 <= i < |s| ==> s[i] == s[1..][i - 1];
    }
  }

  lemma {:induction false} TrimEndEmptyIffAllSpace(s: string)
    ensures TrimEnd(s) == "" <==> forall i :: 0 <= i < |s| ==> IsSpace(s[i])
  {
    if |s| > 0 && IsSpace(s[|s| - 1]) {
      TrimEndEmptyIffAllSpace(s[..|s| - 1]);
      assert forall i :: 0 <= i < |s| - 1 ==> s[i] == s[..|s| - 1][i];
    }
  }

  /** Deleting a portfolio just created under a fresh id restores the list; the
      selection falls back to the first older portfolio, or to nothing. */
  lemma DeleteUndoesCreate(portfolios: seq<Portfolio>, selection: Option<Portfolio>, name: string, created: Portfolio)
    requires !Blank(name)
    requires forall i :: 0 <= i < |portfolios| ==> portfolios[i].id != created.id
    ensures var (after, chosen) := CreatePortfolio(portfolios, selection, name, created);
      var (back, reselected) := DeletePortfolio(after, chosen, created.id);
      back == portfolios && reselected == (if |portfolios| == 0 then None else Some(portfolios[0]))
  {
    var keep := (p: Portfolio) => p.id != created.id;
    FilterSnoc(portfolios, created, keep);
    FilterKeepsAll(portfolios, keep);
  }

  /** The form of `handleAddItem`, every field as typed. */
  datatype ItemForm = ItemForm(ticker: string, quantity: string, purchasePrice: string, notes: string)

  /** The request `handleAddItem` sends: the ticker upper-cased, the numbers
      still as typed (their parsing is not modelled). */
  datatype AddRequest = AddRequest(portfolioId: int, ticker: string, quantity: string, purchasePrice: string, notes: string)

  /** `handleAddItem` sends nothing without a selected portfolio or with an
      empty ticker, quantity or price. */
  function AddItemRequest(selection: Option<Portfolio>, form: ItemForm): (r: Option<AddRequest>)
    ensures r.Some? <==> selection.Some? && form.ticker != "" && form.quantity != "" && form.purchasePrice != ""
    ensures r.Some? ==> r.value.portfolioId == selection.value.id && |r.value.ticker| == |form.ticker|
    ensures r.Some? ==> forall i :: 0 <= i < |r.value.ticker| ==> !('a' <= r.value.ticker[i] <= 'z')
    ensures r.Some? ==> ToLower(r.value.ticker) == ToLower(form.ticker)
    ensures r.Some? ==> r.value.quantity == form.quantity && r.value.purchasePrice == form.purchasePrice && r.value.notes == form.notes
  {
    if selection.None? || form.ticker == "" || form.quantity == "" || form.purchasePrice == "" then None
    else Some(AddRequest(selection.value.id, ToUpper(form.ticker), form.quantity, form.purchasePrice, form.notes))
  }
}
