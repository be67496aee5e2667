/** Lesson 9, src/_09_generics.rs: a generic maximum search, generic structs
    with getters, a generic container with `map` and `i32`-only methods, a
    calculator, and `Vec<T>` seen through the `Container<T>` trait. The
    integer instances are the ones modelled; the `f64` and `&str` instances
    the lesson also runs are not. */
module Generics {
  import opened Std
  import opened Str

  const I64_MIN: int := -0x8000_0000_0000_0000
  const I64_MAX: int := 0x7fff_ffff_ffff_ffff

  predicate IsI64(x: int) { I64_MIN <= x <= I64_MAX }

  // ---- find_max ---------------------------------------------------------

  /** `find_max` over a slice of any `T: PartialOrd`, given its `>`: `None`
      for an empty slice; otherwise it starts from the first element and moves
      to a later one only when that one is strictly greater. The answer is the
      position of the element the returned reference points to: nothing in
      the slice is greater, and everything before it is smaller, so on ties
      the first occurrence wins. */
  method FindMax<T(!new)>(list: seq<T>, greater: (T, T) -> bool) returns (r: Option<nat>)
    requires StrictWeakOrder(greater)
    ensures r.None? <==> list == []
    ensures r.Some? ==> r.value < |list|
    ensures r.Some? ==> forall j :: 0 <= j < |list| ==> !greater(list[j], list[r.value])
    ensures r.Some? ==> forall j :: 0 <= j < r.value ==> greater(list[r.value], list[j])
  {
    if list == [] {
      return None;
    }
    var max := 0;
    var i := 1;
    while i < |list|
      invariant 1 <= i <= |list|
      invariant max < i
      invariant forall j :: 0 <= j < i ==> !greater(list[j], list[max])
      invariant forall j :: 0 <= j < max ==> greater(list[max], list[j])
    {
      if greater(list[i], list[max]) {
        max := i;
      }
      i := i + 1;
    }
    r := Some(max);
  }

  /** On integers the answer is the first position of the largest number. */
  method FindMaxInt(list: seq<int>) returns (r: Option<nat>)
    ensures r.None? <==> list == []
    ensures r.Some? ==> r.value < |list|
    ensures r.Some? ==> forall j :: 0 <= j < |list| ==> list[j] <= list[r.value]
    ensures r.Some? ==> forall j :: 0 <= j < r.value ==> list[j] < list[r.value]
  {
    IntGreaterIsStrictWeakOrder();
    r := FindMax(list, IntGreater);
  }

  /** `generic_functions`: 9 is the largest of [1, 5, 3, 9, 2] and "pear" the
      greatest of "apple", "banana", "orange" and "pear". */
  method GenericFunctions() returns (maxNumber: Option<int>, maxString: Option<string>)
    ensures maxNumber == Some(9) && maxString == Some("pear")
  {
    var numbers := [1, 5, 3, 9, 2];
    var found := FindMaxInt(numbers);
    assert numbers[found.value] >= numbers[3];
    assert found.value == 3;
    maxNumber := Some(numbers[found.value]);
    var strings := ["apple", "banana", "orange", "pear"];
    LexIsStrictWeakOrder();
    var foundString := FindMax(strings, LexGreater);
    assert LexGreater(strings[3], strings[0]) && LexGreater(strings[3], strings[1])
      && LexGreater(strings[3], strings[2]);
    assert foundString.value == 3;
    maxString := Some(strings[foundString.value]);
  }

  // ---- Point<T> and Pair<K, V> ------------------------------------------

  /** `struct Point<T>` with its getters. */
  datatype Point<T> = Point(x: T, y: T) {
    function GetX(): T { x }
    function GetY(): T { y }
  }

  /** `struct Pair<K, V>` and `Pair::get`. */
  datatype Pair<K, V> = Pair(key: K, value: V) {
    function Get(): (K, V) { (key, value) }
  }

  // ---- Container<T> -----------------------------------------------------

  /** `struct Container<T>`, whose `i32` instance is updated in place by
      `increment`. */
  class Container<T> {
    var value: T

    /** `Container::new` */
    constructor (value: T)
      ensures this.value == value
    {
      this.value := value;
    }

    /** `Container::get` */
    function Get(): T
      reads this
    {
      value
    }

    /** `Container::map`: a new container holding `f` of the value. */
    method Map<U>(f: T -> U) returns (c: Container<U>)
      ensures fresh(c)
      ensures c.Get() == f(Get())
    {
      c := new Container(f(value));
    }
  }

  /** `impl Container<i32> { fn increment }`: adds one, which must not
      overflow. */
  method Increment(c: Container<int>)
    requires IsI32(c.value + 1)
    modifies c
    ensures c.Get() == old(c.Get()) + 1
  {
    c.value := c.value + 1;
  }

  /** `impl Container<i32> { fn square }`: the square, widened to `i64`, in a
      new container; the container squared is unchanged. */
  method Square(c: Container<int>) returns (s: Container<int>)
    requires IsI32(c.value)
    ensures fresh(s)
    ensures s.Get() == c.Get() * c.Get()
    ensures IsI64(s.Get())
  {
    SquareFitsI64(c.value);
    s := new Container(c.value * c.value);
  }

  /** The square of an `i32` never overflows `i64`. */
  lemma SquareFitsI64(x: int)
    requires IsI32(x)
    ensures IsI64(x * x)
  {
    var a := if x < 0 then -x else x;
    assert x * x == a * a;
    MulAtMost(a, 0x8000_0000);
  }

  /** A square of a number at most `b` is at most `b * b`. */
  lemma MulAtMost(a: nat, b: nat)
    requires a <= b
    ensures a * a <= b * b
  {
    assert a * a <= a * b;
    assert a * b <= b * b;
  }

  /** `generic_methods`: 42 is read back, 10 goes to 11 and squares to 121,
      5 maps to "5" through `to_string` and "hello" maps to its length 5
      through `len`. */
  method GenericMethods() returns (v1: int, v2: int, squared: int, text: string, length: int)
    ensures v1 == 42 && v2 == 11 && squared == 121
    ensures text == "5" && length == 5
  {
    var container1 := new Container(42);
    v1 := container1.Get();
    var container2 := new Container(10);
    Increment(container2);
    v2 := container2.Get();
    var sq := Square(container2);
    squared := sq.Get();
    var container3 := new Container(5);
    var mapped := container3.Map(Dec);
    text := mapped.Get();
    assert Dec(5) == "5";
    var container4 := new Container("hello");
    var mapped2 := container4.Map(Utf8Len);
    length := mapped2.Get();
    Utf8LenAscii("hello");
  }

  // ---- Calculator -------------------------------------------------------

  /** `struct Calculator<T>`, here its `i32` instance. */
  class Calculator {
    var value: int

    /** `Calculator::new` */
    constructor (value: int)
      ensures this.value == value
    {
      this.value := value;
    }

    /** `Calculator::add`: adds `other` in place. */
    method Add(other: int)
      requires IsI32(value + other)
      modifies this
      ensures value == old(value) + other
    {
      value := value + other;
    }

    /** `Calculator::subtract`: subtracts `other` in place. */
    method Subtract(other: int)
      requires IsI32(value - other)
      modifies this
      ensures value == old(value) - other
    {
      value := value - other;
    }

    /** `Calculator::get` */
    function Get(): int
      reads this
    {
      value
    }
  }

  /** Adding and then subtracting the same amount restores the value. */
  method AddThenSubtract(calculator: Calculator, amount: int)
    requires IsI32(calculator.value) && IsI32(calculator.value + amount)
    modifies calculator
    ensures calculator.Get() == old(calculator.Get())
  {
    calculator.Add(amount);
    calculator.Subtract(amount);
  }

  /** `generic_constraints`: 100, then 150, then 125. */
  method CalculatorDemo() returns (initial: int, afterAdd: int, afterSubtract: int)
    ensures initial == 100 && afterAdd == 150 && afterSubtract == 125
  {
    var calculator := new Calculator(100);
    initial := calculator.Get();
    calculator.Add(50);
    afterAdd := calculator.Get();
    calculator.Subtract(25);
    afterSubtract := calculator.Get();
  }

  // ---- Container<T> for Vec<T> ------------------------------------------

  /** `Container::add` for `Vec<T>`: pushes at the end. */
  method VecAdd<T>(v: Vec<T>, item: T)
    modifies v
    ensures v.elems == old(v.elems) + [item]
  {
    v.Push(item);
  }

  /** `Container::get` for `Vec<T>`: the slice's bounds-checked `get`. */
  function VecGet<T>(v: Vec<T>, index: nat): (r: Option<T>)
    reads v
    ensures r.Some? <==> index < |v.elems|
    ensures r.Some? ==> r.value == v.elems[index]
  {
    if index < |v.elems| then Some(v.elems[index]) else None
  }

  /** An added item is found at the old length, and every earlier index
      reads as before. */
  method VecAddThenGet<T>(v: Vec<T>, item: T, index: nat) returns (r: Option<T>)
    modifies v
    ensures index == |old(v.elems)| ==> r == Some(item)
    ensures index < |old(v.elems)| ==> r == Some(old(v.elems)[index])
    ensures index > |old(v.elems)| ==> r == None
  {
    VecAdd(v, item);
    r := VecGet(v, index);
  }

  /** `advanced_generics`: after pushing 10, 20 and 30, index 1 holds 20 and
      index 3 is out of bounds. */
  method AdvancedGenerics() returns (second: Option<int>, fourth: Option<int>)
    ensures second == Some(20) && fourth == None
  {
    var v := new Vec([]);
    VecAdd(v, 10);
    VecAdd(v, 20);
    VecAdd(v, 30);
    second := VecGet(v, 1);
    fourth := VecGet(v, 3);
  }
}
