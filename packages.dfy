/** Lesson 7, src/_07_packages_modules.rs: the functions behind the module
    examples. Modules and visibility are compile-time matters and leave no
    trace here; what remains is `math::subtract`, `company::Department` and
    the `ecommerce` shopping cart. Prices are `f64` dollars in the source and
    whole cents here. */
module Packages {
  import opened Std

  /** `math::subtract` on `i32`; a difference outside `i32` panics in Rust. */
  function Subtract(a: int, b: int): (r: int)
    requires IsI32(a - b)
    ensures r + b == a
  {
    a - b
  }

  /** `math::subtract(10, 4)` is 6. */
  lemma SubtractDemo()
    ensures Subtract(10, 4) == 6
  {
  }

  // ---- company::Department ----------------------------------------------

  datatype Employee = Employee(name: string, position: string)

  /** `company::Department`: its fields are private, so a department is only
      ever built by `new` and read through `get_name`. */
  datatype Department = Department(name: string, employees: seq<Employee>) {

    /** `Department::get_name`. */
    function GetName(): string
    {
      name
    }
  }

  /** `Department::new`: the given name and no employees. */
  function NewDepartment(name: string): (d: Department)
    ensures d.employees == []
    ensures d.GetName() == name
  {
    Department(name, [])
  }

  /** Departments built by `new` are equal exactly when their names are. */
  lemma NewDepartmentInjective(a: string, b: string)
    ensures NewDepartment(a) == NewDepartment(b) <==> a == b
  {
  }

  // ---- ecommerce::products and ecommerce::cart ---------------------------

  /** `products::Product`, with the price in cents. */
  datatype Product = Product(id: nat, name: string, priceCents: nat, category: string)

  /** One cart line: a product and its `u32` quantity. */
  type Line = (Product, nat)

  /** The price of one line: `product.price * quantity`. */
  function Subtotal(line: Line): nat
  {
    line.0.priceCents * line.1
  }

  /** The sum of the line prices, front to back: no line costs more than
      the whole. */
  function Total(items: seq<Line>): (r: nat)
    ensures forall i :: 0 <= i < |items| ==> Subtotal(items[i]) <= r
  {
    if items == [] then 0 else Subtotal(items[0]) + Total(items[1..])
  }

  /** `Vec::retain` with the closure `|(product, _)| product.id != product_id`:
      the lines of other products, in their original order. */
  function Retain(items: seq<Line>, productId: nat): (r: seq<Line>)
    ensures |r| <= |items|
    ensures forall i :: 0 <= i < |r| ==> r[i].0.id != productId && r[i] in items
  {
    if items == [] then []
    else if items[0].0.id != productId then [items[0]] + Retain(items[1..], productId)
    else Retain(items[1..], productId)
  }

  /** The lines of `items` for one product: what `Retain` drops. */
  function Matching(items: seq<Line>, productId: nat): seq<Line>
  {
    if items == [] then []
    else if items[0].0.id == productId then [items[0]] + Matching(items[1..], productId)
    else Matching(items[1..], productId)
  }

  /** A line of another product survives removal. */
  lemma {:induction false} RetainKeeps(items: seq<Line>, productId: nat, line: Line)
    requires line in items && line.0.id != productId
    ensures line in Retain(items, productId)
    decreases |items|
  {
    if items[0] != line {
      RetainKeeps(items[1..], productId, line);
    }
  }

  /** Removal works line by line, so it distributes over concatenation and
      therefore keeps the relative order of what it keeps. */
  lemma {:induction false} RetainAppend(a: seq<Line>, b: seq<Line>, productId: nat)
    ensures Retain(a + b, productId) == Retain(a, productId) + Retain(b, productId)
    decreases |a|
  {
    if a == [] {
      assert a + b == b;
    } else {
      assert (a + b)[0] == a[0] && (a + b)[1..] == a[1..] + b;
      RetainAppend(a[1..], b, productId);
    }
  }

  /** Removing an id that no line has leaves the cart unchanged. */
  lemma {:induction false} RetainAbsent(items: seq<Line>, productId: nat)
    requires forall i :: 0 <= i < |items| ==> items[i].0.id != productId
    ensures Retain(items, productId) == items
    decreases |items|
  {
    if items != [] {
      RetainAbsent(items[1..], productId);
    }
  }

  /** Removing the same product twice is the same as removing it once. */
  lemma RetainIdempotent(items: seq<Line>, productId: nat)
    ensures Retain(Retain(items, productId), productId) == Retain(items, productId)
  {
    RetainAbsent(Retain(items, productId), productId);
  }

  /** Removing two products gives the same cart in either order. */
  lemma {:induction false} RetainCommutes(items: seq<Line>, p: nat, q: nat)
    ensures Retain(Retain(items, p), q) == Retain(Retain(items, q), p)
    decreases |items|
  {
    if items != [] {
      RetainCommutes(items[1..], p, q);
    }
  }

  /** Adding a line raises the total by that line's price. */
  lemma {:induction false} TotalAppend(items: seq<Line>, line: Line)
    ensures Total(items + [line]) == Total(items) + Subtotal(line)
    decreases |items|
  {
    if items != [] {
      assert (items + [line])[1..] == items[1..] + [line];
      TotalAppend(items[1..], line);
    }
  }

  /** Removing a product lowers the total by exactly the price of its lines. */
  lemma {:induction false} TotalRetain(items: seq<Line>, productId: nat)
    ensures Total(items) == Total(Retain(items, productId)) + Total(Matching(items, productId))
    decreases |items|
  {
    if items != [] {
      TotalRetain(items[1..], productId);
    }
  }

  /** `cart::ShoppingCart`. Its `items` vector is private and changed in place
      by `add_item` and `remove_item`. */
  class ShoppingCart {
    var items: seq<Line>

    /** `ShoppingCart::new`: an empty cart. */
    constructor ()
      ensures items == []
    {
      items := [];
    }

    /** `add_item`: the line goes at the end; earlier lines stay as they are. */
    method AddItem(product: Product, quantity: nat)
      requires IsU32(quantity)
      modifies this
      ensures items == old(items) + [(product, quantity)]
      ensures CalculateTotal() == old(CalculateTotal()) + product.priceCents * quantity
    {
      TotalAppend(items, (product, quantity));
      items := items + [(product, quantity)];
    }

    /** `remove_item`: drops every line of the product and keeps the rest in
      order; the total falls by what those lines cost. */
    method RemoveItem(productId: nat)
      modifies this
      ensures items == Retain(old(items), productId)
      ensures CalculateTotal() == old(CalculateTotal()) - Total(Matching(old(items), productId))
    {
      TotalRetain(items, productId);
      items := Retain(items, productId);
    }

    /** `calculate_total`: the sum of `price * quantity` over the lines. */
    function CalculateTotal(): (r: nat)
      reads this
      ensures items == [] ==> r == 0
      ensures forall i :: 0 <= i < |items| ==> Subtotal(items[i]) <= r
    {
      Total(items)
    }
  }

  /** `practical_example`: three products in the cart cost $2089.94; without
      product 2 they cost $1089.96. */
  method PracticalExample() returns (before: nat, after: nat)
    ensures before == 208994 && after == 108996
  {
    var laptop := Product(1, "Laptop", 99999, "Electronics");
    var phone := Product(2, "Smartphone", 49999, "Electronics");
    var book := Product(3, "Rust Programming Book", 2999, "Books");
    var cart := new ShoppingCart();
    cart.AddItem(laptop, 1);
    cart.AddItem(phone, 2);
    cart.AddItem(book, 3);
    var lines := [(laptop, 1), (phone, 2), (book, 3)];
    assert cart.items == lines;
    assert lines[1..] == [(phone, 2), (book, 3)] && lines[1..][1..] == [(book, 3)];
    assert Total(lines[1..][1..]) == 8997;
    assert Total(lines[1..]) == 99998 + 8997;
    assert Retain(lines[1..][1..], 2) == [(book, 3)];
    assert Retain(lines[1..], 2) == [(book, 3)];
    before := cart.CalculateTotal();
    cart.RemoveItem(2);
    after := cart.CalculateTotal();
    var kept := [(laptop, 1), (book, 3)];
    assert cart.items == kept;
    assert kept[1..] == [(book, 3)];
  }
}
