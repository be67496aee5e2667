/** Lesson 3, src/_03_structs.rs: the `Rectangle` struct with its methods and
    associated functions, the struct update syntax on `User`, and the order
    in which a `match` tries destructuring patterns. Fields are `u32`; a
    product that would overflow `u32` panics in Rust and is excluded by a
    precondition here. */
module Structs {
  import opened Std

  /** `struct Rectangle { width: u32, height: u32 }`. `resize` takes
      `&mut self`, so a rectangle is an object whose fields change in place. */
  class Rectangle {
    var width: int
    var height: int

    /** Both fields hold `u32` values. */
    predicate Valid()
      reads this
    {
      IsU32(width) && IsU32(height)
    }

    /** The struct literal `Rectangle { width, height }`. */
    constructor (width: int, height: int)
      requires IsU32(width) && IsU32(height)
      ensures Valid()
      ensures this.width == width && this.height == height
    {
      this.width := width;
      this.height := height;
    }

    /** `Rectangle::square`: both sides equal `size`. */
    constructor Square(size: int)
      requires IsU32(size)
      ensures Valid()
      ensures width == size && height == size
    {
      width := size;
      height := size;
    }

    /** `Rectangle::default`: a 100 by 100 rectangle. */
    constructor Default()
      ensures Valid()
      ensures width == 100 && height == 100
    {
      width := 100;
      height := 100;
    }

    /** `area`: the `u32` product, which must not overflow. */
    function Area(): (r: int)
      reads this
      requires Valid() && IsU32(width * height)
      ensures IsU32(r)
      ensures r == 0 <==> width == 0 || height == 0
    {
      MulSign(width, height);
      width * height
    }

    /** `can_hold`: neither side of `other` exceeds the matching side here. */
    predicate CanHold(other: Rectangle)
      reads this, other
    {
      width >= other.width && height >= other.height
    }

    /** `resize`: overwrites both sides and nothing else. */
    method Resize(newWidth: int, newHeight: int)
      requires IsU32(newWidth) && IsU32(newHeight)
      modifies this
      ensures Valid()
      ensures width == newWidth && height == newHeight
      ensures IsU32(newWidth * newHeight) ==> Area() == newWidth * newHeight
    {
      width := newWidth;
      height := newHeight;
    }
  }

  /** Every rectangle can hold itself. */
  lemma CanHoldReflexive(r: Rectangle)
    ensures r.CanHold(r)
  {
  }

  /** If `a` holds `b` and `b` holds `c`, then `a` holds `c`. */
  lemma CanHoldTransitive(a: Rectangle, b: Rectangle, c: Rectangle)
    requires a.CanHold(b) && b.CanHold(c)
    ensures a.CanHold(c)
  {
  }

  /** Two rectangles that hold each other have the same sides. */
  lemma CanHoldAntisymmetric(a: Rectangle, b: Rectangle)
    requires a.CanHold(b) && b.CanHold(a)
    ensures a.width == b.width && a.height == b.height
  {
  }

  /** A rectangle that can hold another has at least its area. */
  lemma {:induction false} CanHoldArea(a: Rectangle, b: Rectangle)
    requires a.Valid() && b.Valid() && IsU32(a.width * a.height) && IsU32(b.width * b.height)
    requires a.CanHold(b)
    ensures b.Area() <= a.Area()
  {
    MulMonotone(b.width, a.width, b.height, a.height);
  }

  lemma MulMonotone(w1: nat, w2: nat, h1: nat, h2: nat)
    requires w1 <= w2 && h1 <= h2
    ensures w1 * h1 <= w2 * h2
  {
    assert w1 * h1 <= w2 * h1;
    assert w2 * h1 <= w2 * h2;
  }

  /** `struct_methods`: 30x50 has area 1500 and holds 20x40; 10x20 has area
      200, and 375 once resized to 15x25. */
  method StructMethods() returns (area1: int, holds: bool, before: int, after: int)
    ensures area1 == 1500 && holds
    ensures before == 200 && after == 375
  {
    var rect1 := new Rectangle(30, 50);
    area1 := rect1.Area();
    var rect2 := new Rectangle(20, 40);
    holds := rect1.CanHold(rect2);
    var rect3 := new Rectangle(10, 20);
    before := rect3.Area();
    rect3.Resize(15, 25);
    after := rect3.Area();
  }

  /** `associated_functions`: the 20-square has area 400 and the default
      rectangle 10000. */
  method AssociatedFunctions() returns (square: Rectangle, squareArea: int, defaultRect: Rectangle, defaultArea: int)
    ensures square.width == 20 && square.height == 20 && squareArea == 400
    ensures defaultRect.width == 100 && defaultRect.height == 100 && defaultArea == 10000
  {
    square := new Rectangle.Square(20);
    squareArea := square.Area();
    defaultRect := new Rectangle.Default();
    defaultArea := defaultRect.Area();
  }

  // ---- Struct update syntax ---------------------------------------------

  /** `struct User`: `sign_in_count` is a `u64`. */
  datatype User = User(username: string, email: string, signInCount: nat, active: bool)

  /** `User { username, email, ..base }`: the two named fields are new, the
      rest come from `base`. */
  function UpdateUser(base: User, username: string, email: string): (r: User)
    ensures r.username == username && r.email == email
    ensures r.signInCount == base.signInCount && r.active == base.active
  {
    base.(username := username, email := email)
  }

  /** Updating twice keeps only the second set of named fields, and updating
      with a user's own name and email gives that user back. */
  lemma UpdateUserLaws(base: User, u1: string, e1: string, u2: string, e2: string)
    ensures UpdateUser(UpdateUser(base, u1, e1), u2, e2) == UpdateUser(base, u2, e2)
    ensures UpdateUser(base, base.username, base.email) == base
  {
  }

  /** `struct_update_syntax`: bob takes alice's count and activity. */
  lemma StructUpdateDemo()
    ensures var user1 := User("alice", "alice@example.com", 1, true);
      UpdateUser(user1, "bob", "bob@example.com") == User("bob", "bob@example.com", 1, true)
  {
  }

  // ---- Destructuring in a match -----------------------------------------

  /** The arm that `match rect { ... }` in `destructuring_structs` takes. */
  datatype RectArm = ZeroWidth | ZeroHeight | Sides(width: int, height: int)

  /** The arms are tried in order: width 0 first, then height 0, then the
      binding arm that destructures both sides. */
  function MatchRectangle(rect: Rectangle): (r: RectArm)
    reads rect
    ensures r == ZeroWidth <==> rect.width == 0
    ensures r == ZeroHeight <==> rect.width != 0 && rect.height == 0
    ensures r.Sides? <==> rect.width != 0 && rect.height != 0
    ensures r.Sides? ==> r.width == rect.width && r.height == rect.height
  {
    if rect.width == 0 then ZeroWidth
    else if rect.height == 0 then ZeroHeight
    else Sides(rect.width, rect.height)
  }

  /** `destructuring_structs`: 40x60 reaches the binding arm. */
  method DestructuringStructs() returns (arm: RectArm)
    ensures arm == Sides(40, 60)
  {
    var rect := new Rectangle(40, 60);
    arm := MatchRectangle(rect);
  }
}
