/** Pricing a cart against the effective menu. */
module PriceCart {
  import opened Options

  datatype Result<+T> = Ok(value: T) | Invalid(message: string)

  datatype Variation = Variation(id: string, name: string, finalPrice: real, isDefault: bool)
  datatype Item = Item(id: string, productCode: string, name: string, finalPrice: real, isAvailable: bool, variations: seq<Variation>)
  datatype Category = Category(items: seq<Item>)
  datatype Menu = Menu(currency: string, categories: seq<Category>)

  datatype CartItem = CartItem(itemId: string, variationId: string, quantity: int)
  datatype Line = Line(
    itemId: string, productCode: string, name: string, variationId: string, variationName: string,
    quantity: int, unitPrice: int)

  // ---------------------------------------------------------------------
  // Specification
  // ---------------------------------------------------------------------

  /** Every item of the menu, in menu order. */
  function Items(categories: seq<Category>): seq<Item> {
    if categories == [] then [] else Items(categories[..|categories| - 1]) + categories[|categories| - 1].items
  }

  /** Category after category, and in each its items in their own order. */
  lemma {:induction false} ItemsInOrder(a: seq<Category>, b: seq<Category>)
    ensures Items(a + b) == Items(a) + Items(b)
  {
    if b == [] {
      assert a + b == a;
    } else {
      var init, c := b[..|b| - 1], b[|b| - 1];
      ItemsInOrder(a, init);
      assert Items(a + b) == Items(a + init) + c.items by { assert (a + b)[..|a + b| - 1] == a + init; }
      Joined(Items(a), Items(init), c.items);
    }
  }

  lemma Joined(x: seq<Item>, y: seq<Item>, z: seq<Item>)
    ensures x + y + z == x + (y + z)
  {
  }

  /** The last item of the menu with this id. */
  function LastWithId(items: seq<Item>, id: string): Option<Item> {
    if items == [] then None
    else if items[|items| - 1].id == id then Some(items[|items| - 1])
    else LastWithId(items[..|items| - 1], id)
  }

  /** Its position: no item after it has the id, and none at all if there is none. */
  lemma {:induction false} LastWithIdIsLast(items: seq<Item>, id: string) returns (k: nat)
    ensures k <= |items| && LastWithId(items, id) == if k == 0 then None else Some(items[k - 1])
    ensures (k > 0 ==> items[k - 1].id == id) && forall j :: k <= j < |items| ==> items[j].id != id
  {
    if items == [] {
      k := 0;
    } else if items[|items| - 1].id == id {
      k := |items|;
    } else {
      k := LastWithIdIsLast(items[..|items| - 1], id);
    }
  }

  /** Rounding half away from zero to whole kopecks. */
  function Kopecks(rubles: real): int {
    var x := rubles * 100.0;
    if x >= 0.0 then (x + 0.5).Floor else -((-x + 0.5).Floor)
  }

  /** A nearest integer; of two that are equally near, the one further from zero. */
  lemma KopecksNearest(rubles: real)
    ensures -0.5 <= Kopecks(rubles) as real - rubles * 100.0 <= 0.5
    ensures rubles >= 0.0 ==> -0.5 < Kopecks(rubles) as real - rubles * 100.0
    ensures Kopecks(-rubles) == -Kopecks(rubles)
  {
  }

  /** The position of the first variation with the property, or |vars|. */
  function FirstDefault(vars: seq<Variation>): (k: nat)
    ensures k <= |vars| && (k < |vars| ==> vars[k].isDefault) && forall j :: 0 <= j < k ==> !vars[j].isDefault
  {
    if vars == [] || vars[0].isDefault then 0 else 1 + FirstDefault(vars[1..])
  }

  function FirstWithId(vars: seq<Variation>, id: string): (k: nat)
    ensures k <= |vars| && (k < |vars| ==> vars[k].id == id) && forall j :: 0 <= j < k ==> vars[j].id != id
  {
    if vars == [] || vars[0].id == id then 0 else 1 + FirstWithId(vars[1..], id)
  }

  /** The variation an order line charges: the one asked for, or else the first
      default, or else the first; none for an item without variations. */
  function ChosenVariation(item: Item, variationId: string): Result<Option<Variation>> {
    var vars := item.variations;
    if vars == [] then
      if variationId == "" then Ok(None) else Invalid("invalid option for " + item.name)
    else if variationId == "" then
      Ok(Some(vars[if FirstDefault(vars) < |vars| then FirstDefault(vars) else 0]))
    else if FirstWithId(vars, variationId) < |vars| then Ok(Some(vars[FirstWithId(vars, variationId)]))
    else Invalid("invalid option for " + item.name)
  }

  /** One cart line on its own. */
  function PriceLine(items: seq<Item>, ci: CartItem): Result<Line> {
    match LastWithId(items, ci.itemId)
    case None => Invalid("an item in your order is no longer on the menu")
    case Some(item) =>
      if !item.isAvailable then Invalid(item.name + " is not available right now")
      else if ci.quantity < 1 || ci.quantity > 50 then Invalid("quantity must be between 1 and 50")
      else match ChosenVariation(item, ci.variationId)
        case Invalid(m) => Invalid(m)
        case Ok(None) => Ok(Line(item.id, item.productCode, item.name, "", "", ci.quantity, Kopecks(item.finalPrice)))
        case Ok(Some(v)) => Ok(Line(item.id, item.productCode, item.name, v.id, v.name, ci.quantity, Kopecks(v.finalPrice)))
  }

  /** The whole cart: line by line, stopping at the first refusal. */
  function PriceAll(items: seq<Item>, cart: seq<CartItem>): Result<seq<Line>> {
    if cart == [] then Ok([])
    else match PriceAll(items, cart[..|cart| - 1])
      case Invalid(m) => Invalid(m)
      case Ok(lines) =>
        match PriceLine(items, cart[|cart| - 1])
        case Invalid(m) => Invalid(m)
        case Ok(line) => Ok(lines + [line])
  }

  // ---------------------------------------------------------------------
  // The code
  // ---------------------------------------------------------------------

  /** Position `k` holds the variation an order line asks for: the first with its id
      or, without an id, the first default and, without any default, the first. */
  predicate IsAskedFor(vars: seq<Variation>, variationId: string, k: nat) {
    && k < |vars|
    && (variationId != "" ==> vars[k].id == variationId && forall j :: 0 <= j < k ==> vars[j].id != variationId)
    && (variationId == "" && vars[k].isDefault ==> forall j :: 0 <= j < k ==> !vars[j].isDefault)
    && (variationId == "" && !vars[k].isDefault ==> k == 0 && forall j :: 0 <= j < |vars| ==> !vars[j].isDefault)
  }

  /** Without variations there is none to ask for; with some, one is always found for an
      empty id, and for another exactly if it is there. */
  method PickVariation(item: Item, variationId: string) returns (r: Result<Option<Variation>>)
    ensures r == ChosenVariation(item, variationId)
    ensures item.variations == [] ==> r == if variationId == "" then Ok(None) else Invalid("invalid option for " + item.name)
    ensures item.variations != [] && r.Ok? ==>
      r.value.Some? && exists k: nat :: IsAskedFor(item.variations, variationId, k) && r.value.value == item.variations[k]
    ensures item.variations != [] && r.Invalid? ==> variationId != "" && r.message == "invalid option for " + item.name
    ensures item.variations != [] && r.Invalid? ==> forall v :: v in item.variations ==> v.id != variationId
  {
    var vars := item.variations;
    if |vars| == 0 {
      if variationId != "" { return Invalid("invalid option for " + item.name); }
      return Ok(None);
    }
    if variationId == "" {
      for k := 0 to |vars|
        invariant forall j :: 0 <= j < k ==> !vars[j].isDefault
      {
        if vars[k].isDefault {
          assert IsAskedFor(vars, variationId, k);
          return Ok(Some(vars[k]));
        }
      }
      assert IsAskedFor(vars, variationId, 0);
      return Ok(Some(vars[0]));
    }
    for k := 0 to |vars|
      invariant forall j :: 0 <= j < k ==> vars[j].id != variationId
    {
      if vars[k].id == variationId {
        assert IsAskedFor(vars, variationId, k);
        return Ok(Some(vars[k]));
      }
    }
    return Invalid("invalid option for " + item.name);
  }

  ghost predicate Indexes(byId: map<string, Item>, items: seq<Item>) {
    forall id :: (if id in byId then Some(byId[id]) else None) == LastWithId(items, id)
  }

  lemma IndexesOneMore(byId: map<string, Item>, items: seq<Item>, item: Item)
    requires Indexes(byId, items)
    ensures Indexes(byId[item.id := item], items + [item])
  {
  }

  /** The first loop of priceCart: the map that the lookups go through. */
  method IndexById(menu: Menu) returns (byId: map<string, Item>)
    ensures Indexes(byId, Items(menu.categories))
  {
    byId := map[];
    for c := 0 to |menu.categories|
      invariant Indexes(byId, Items(menu.categories[..c]))
    {
      var items := menu.categories[c].items;
      ghost var before := Items(menu.categories[..c]);
      assert before + items[..0] == before;
      for k := 0 to |items|
        invariant Indexes(byId, before + items[..k])
      {
        IndexesOneMore(byId, before + items[..k], items[k]);
        byId := byId[items[k].id := items[k]];
        assert before + items[..k] + [items[k]] == before + items[..k + 1];
      }
      assert menu.categories[..c + 1][..c] == menu.categories[..c];
      assert items[..|items|] == items;
    }
    assert menu.categories[..|menu.categories|] == menu.categories;
  }

  method PriceCart(menu: Menu, cart: seq<CartItem>) returns (r: Result<seq<Line>>)
    ensures r == PriceAll(Items(menu.categories), cart)
  {
    var byId := IndexById(menu);
    var lines: seq<Line> := [];
    ghost var items := Items(menu.categories);
    for k := 0 to |cart|
      invariant PriceAll(items, cart[..k]) == Ok(lines)
    {
      var ci := cart[k];
      assert cart[..k + 1][..k] == cart[..k];
      RefusalSticks(items, cart, k + 1);
      if ci.itemId !in byId {
        return Invalid("an item in your order is no longer on the menu");
      }
      var item := byId[ci.itemId];
      if !item.isAvailable { return Invalid(item.name + " is not available right now"); }
      if ci.quantity < 1 || ci.quantity > 50 { return Invalid("quantity must be between 1 and 50"); }
      var line := Line(item.id, item.productCode, item.name, "", "", ci.quantity, Kopecks(item.finalPrice));
      var picked := PickVariation(item, ci.variationId);
      if picked.Invalid? { return Invalid(picked.message); }
      if picked.value.Some? {
        var v := picked.value.value;
        line := line.(variationId := v.id, variationName := v.name, unitPrice := Kopecks(v.finalPrice));
      }
      lines := lines + [line];
    }
    assert cart[..|cart|] == cart;
    return Ok(lines);
  }

  // ---------------------------------------------------------------------
  // What pricing means
  // ---------------------------------------------------------------------

  /** A refusal of a prefix is the answer for the whole cart. */
  lemma {:induction false} RefusalSticks(items: seq<Item>, cart: seq<CartItem>, k: nat)
    requires k <= |cart|
    ensures PriceAll(items, cart[..k]).Invalid? ==> PriceAll(items, cart) == PriceAll(items, cart[..k])
    decreases |cart| - k
  {
    if k == |cart| {
      assert cart[..k] == cart;
    } else {
      assert cart[..k + 1][..k] == cart[..k];
      RefusalSticks(items, cart, k + 1);
    }
  }

  /** It succeeds exactly when every line does, keeping length and order; the
      answer to a refused cart is its first refused line's. */
  lemma {:induction false} PricesEveryLine(items: seq<Item>, cart: seq<CartItem>)
    ensures var r := PriceAll(items, cart);
            && (r.Ok? <==> forall k :: 0 <= k < |cart| ==> PriceLine(items, cart[k]).Ok?)
            && (r.Ok? ==> |r.value| == |cart| && forall k :: 0 <= k < |cart| ==> PriceLine(items, cart[k]) == Ok(r.value[k]))
            && (r.Invalid? ==> exists k :: 0 <= k < |cart| && PriceLine(items, cart[k]) == Invalid(r.message) &&
                                           forall j :: 0 <= j < k ==> PriceLine(items, cart[j]).Ok?)
  {
    if PriceAll(items, cart).Ok? {
      PricedLines(items, cart);
    } else {
      var k := RefusedLine(items, cart);
    }
  }

  lemma {:induction false} PricedLines(items: seq<Item>, cart: seq<CartItem>)
    requires PriceAll(items, cart).Ok?
    ensures var lines := PriceAll(items, cart).value;
            |lines| == |cart| && forall k :: 0 <= k < |cart| ==> PriceLine(items, cart[k]) == Ok(lines[k])
  {
    if cart != [] {
      var n := |cart| - 1;
      PricedLines(items, cart[..n]);
      assert forall j :: 0 <= j < n ==> cart[..n][j] == cart[j];
    }
  }

  lemma {:induction false} RefusedLine(items: seq<Item>, cart: seq<CartItem>) returns (k: nat)
    requires PriceAll(items, cart).Invalid?
    ensures k < |cart| && PriceLine(items, cart[k]) == Invalid(PriceAll(items, cart).message)
    ensures forall j :: 0 <= j < k ==> PriceLine(items, cart[j]).Ok?
  {
    var n := |cart| - 1;
    if PriceAll(items, cart[..n]).Invalid? {
      k := RefusedLine(items, cart[..n]);
      assert cart[..n][k] == cart[k] && forall j :: 0 <= j < k ==> cart[..n][j] == cart[j];
    } else {
      PricedLines(items, cart[..n]);
      assert forall j :: 0 <= j < n ==> cart[..n][j] == cart[j];
      k := n;
    }
  }

  /** Pricing one cart after another is pricing them together. */
  lemma {:induction false} PricesConcatenation(items: seq<Item>, a: seq<CartItem>, b: seq<CartItem>)
    ensures PriceAll(items, a + b) == Both(PriceAll(items, a), PriceAll(items, b))
  {
    var ra := PriceAll(items, a);
    if b == [] {
      assert a + b == a;
      assert ra.Ok? ==> ra.value + [] == ra.value;
    } else {
      var b', ci := b[..|b| - 1], b[|b| - 1];
      PricesConcatenation(items, a, b');
      PriceOneMore(items, a + b', ci);
      assert a + b == a + b' + [ci];
      var rb', r := PriceAll(items, b'), PriceLine(items, ci);
      if ra.Ok? && rb'.Ok? && r.Ok? {
        assert ra.value + (rb'.value + [r.value]) == ra.value + rb'.value + [r.value];
      }
    }
  }

  /** The answers to two carts as one: the first refusal, or all the lines. */
  function Both(a: Result<seq<Line>>, b: Result<seq<Line>>): Result<seq<Line>> {
    if a.Invalid? then a else if b.Invalid? then b else Ok(a.value + b.value)
  }

  lemma PriceOneMore(items: seq<Item>, cart: seq<CartItem>, ci: CartItem)
    ensures var r, line := PriceAll(items, cart), PriceLine(items, ci);
            PriceAll(items, cart + [ci]) ==
            if r.Invalid? then r else if line.Invalid? then Invalid(line.message) else Ok(r.value + [line.value])
  {
  }

  predicate IsLastWithId(items: seq<Item>, id: string, k: nat) {
    k < |items| && items[k].id == id && forall j :: k < j < |items| ==> items[j].id != id
  }

  /** A price in kopecks that is a menu price in rubles, rounded. */
  predicate Charges(kopecks: int, rubles: real) {
    -0.5 <= kopecks as real - 100.0 * rubles <= 0.5
  }

  /** A priced line is the last menu item with the id, available, with its names and
      the quantity asked for, at the price of the variation asked for or, for an item
      without variations, its own. */
  lemma LineIsFaithful(items: seq<Item>, ci: CartItem) returns (k: nat, v: nat)
    requires PriceLine(items, ci).Ok?
    ensures IsLastWithId(items, ci.itemId, k)
    ensures var line, item := PriceLine(items, ci).value, items[k];
            && line.itemId == ci.itemId && line.productCode == item.productCode && line.name == item.name
            && item.isAvailable && 1 <= line.quantity == ci.quantity <= 50
            && (if item.variations == [] then
                  ci.variationId == line.variationId == line.variationName == "" && Charges(line.unitPrice, item.finalPrice)
                else
                  IsAskedFor(item.variations, ci.variationId, v) &&
                  var x := item.variations[v];
                  line.variationId == x.id && line.variationName == x.name && Charges(line.unitPrice, x.finalPrice))
  {
    var n := LastWithIdIsLast(items, ci.itemId);
    k := n - 1;
    var vars := items[k].variations;
    v := if vars == [] then 0
         else if ci.variationId != "" then FirstWithId(vars, ci.variationId)
         else if FirstDefault(vars) < |vars| then FirstDefault(vars) else 0;
  }

  /** What can be wrong with a line, in the order in which it is looked at. */
  lemma LineIsRefused(items: seq<Item>, ci: CartItem)
    requires PriceLine(items, ci).Invalid?
    ensures var m := PriceLine(items, ci).message;
            if forall j :: 0 <= j < |items| ==> items[j].id != ci.itemId then
              m == "an item in your order is no longer on the menu"
            else
              exists k: nat :: IsLastWithId(items, ci.itemId, k) &&
                var item := items[k];
                if !item.isAvailable then m == item.name + " is not available right now"
                else if !(1 <= ci.quantity <= 50) then m == "quantity must be between 1 and 50"
                else m == "invalid option for " + item.name && ci.variationId != "" &&
                     forall v :: v in item.variations ==> v.id != ci.variationId
  {
    var n := LastWithIdIsLast(items, ci.itemId);
    if n > 0 { assert IsLastWithId(items, ci.itemId, n - 1); }
  }

  /** The menu price, in rubles, of one unit of a cart line. */
  function Charged(items: seq<Item>, ci: CartItem): real
    requires PriceLine(items, ci).Ok?
  {
    var item := LastWithId(items, ci.itemId).value;
    match ChosenVariation(item, ci.variationId).value
    case None => item.finalPrice
    case Some(v) => v.finalPrice
  }

  function Subtotal(lines: seq<Line>): int {
    if lines == [] then 0 else Subtotal(lines[..|lines| - 1]) + lines[|lines| - 1].unitPrice * lines[|lines| - 1].quantity
  }

  ghost function ExactRubles(items: seq<Item>, cart: seq<CartItem>): real
    requires PriceAll(items, cart).Ok?
  {
    if cart == [] then 0.0
    else
      var n := |cart| - 1;
      ExactRubles(items, cart[..n]) + cart[n].quantity as real * Charged(items, cart[n])
  }

  function Units(cart: seq<CartItem>): int {
    if cart == [] then 0 else Units(cart[..|cart| - 1]) + cart[|cart| - 1].quantity
  }

  /** What the last line adds to the subtotal and to the exact price. */
  lemma LastLine(items: seq<Item>, cart: seq<CartItem>) returns (k: int, r: real, u: int)
    requires cart != [] && PriceAll(items, cart).Ok?
    ensures var init := cart[..|cart| - 1];
            && PriceAll(items, init).Ok?
            && Subtotal(PriceAll(items, cart).value) == Subtotal(PriceAll(items, init).value) + k
            && ExactRubles(items, cart) == ExactRubles(items, init) + r
            && Units(cart) == Units(init) + u
    ensures Within(k, r, u)
  {
    var n := |cart| - 1;
    var lines, line := PriceAll(items, cart[..n]).value, PriceLine(items, cart[n]).value;
    assert (lines + [line])[..|lines|] == lines;
    k, r, u := line.unitPrice * line.quantity, cart[n].quantity as real * Charged(items, cart[n]), cart[n].quantity;
    LineError(items, cart[n]);
  }

  lemma LineError(items: seq<Item>, ci: CartItem)
    requires PriceLine(items, ci).Ok?
    ensures var line := PriceLine(items, ci).value;
            Within(line.unitPrice * line.quantity, ci.quantity as real * Charged(items, ci), ci.quantity)
  {
    var line := PriceLine(items, ci).value;
    ScaleError(ci.quantity, line.unitPrice, Charged(items, ci));
  }

  /** Rounding moves the subtotal by at most half a kopeck per unit. */
  lemma {:induction false} SubtotalWithinHalfKopeckPerUnit(items: seq<Item>, cart: seq<CartItem>)
    requires PriceAll(items, cart).Ok?
    ensures Within(Subtotal(PriceAll(items, cart).value), ExactRubles(items, cart), Units(cart))
  {
    if cart != [] {
      var k, r, u := LastLine(items, cart);
      var init := cart[..|cart| - 1];
      SubtotalWithinHalfKopeckPerUnit(items, init);
      AddErrors(Subtotal(PriceAll(items, init).value), ExactRubles(items, init), Units(init), k, r, u);
    }
  }

  /** Kopecks within half a kopeck per unit of a price in rubles. */
  predicate Within(kopecks: int, rubles: real, units: int) {
    -(units as real / 2.0) <= kopecks as real - 100.0 * rubles <= units as real / 2.0
  }

  lemma AddErrors(k: int, r: real, u: int, k': int, r': real, u': int)
    requires Within(k, r, u) && Within(k', r', u')
    ensures Within(k + k', r + r', u + u')
  {
  }

  lemma ScaleError(q: int, unit: int, price: real)
    requires q >= 1 && -0.5 <= unit as real - 100.0 * price <= 0.5
    ensures Within(unit * q, q as real * price, q)
  {
    var e := unit as real - 100.0 * price;
    assert (unit * q) as real == unit as real * q as real;
    assert unit as real * q as real - 100.0 * (q as real * price) == q as real * e;
    assert q as real * e <= q as real * 0.5;
    assert q as real * -0.5 <= q as real * e;
  }
}
