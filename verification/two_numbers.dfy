/**
 * Addition of two non-negative numbers held as singly linked lists of
 * decimal digits, least significant digit first.
 */
module TwoNumbers {

  /** A singly linked list node; `Nil` plays the part of `null`. */
  datatype List = Nil | Node(val: int, next: List)

  function Length(l: List): nat
  {
    match l
    case Nil => 0
    case Node(_, rest) => 1 + Length(rest)
  }

  /** The number the list stands for, least significant digit first. */
  function Value(l: List): int
  {
    match l
    case Nil => 0
    case Node(v, rest) => v + 10 * Value(rest)
  }

  /** Every node holds a decimal digit, as the documentation of the addition assumes. */
  predicate IsDigits(l: List)
  {
    match l
    case Nil => true
    case Node(v, rest) => 0 <= v <= 9 && IsDigits(rest)
  }

  /** `l ? l.val : 0`: an exhausted list reads as a zero digit. */
  function Digit(l: List): int
  {
    if l.Nil? then 0 else l.val
  }

  /** `if (l) l = l.next`: an exhausted cursor stays exhausted. */
  function Advance(l: List): List
  {
    if l.Nil? then Nil else l.next
  }

  function Max(a: int, b: int): int
  {
    if a < b then b else a
  }

  function Pow10(k: nat): nat
  {
    if k == 0 then 1 else 10 * Pow10(k - 1)
  }

  /** The number of iterations in which at least one of the two cursors is live. */
  function Span(l1: List, l2: List): nat
    decreases Length(l1) + Length(l2)
  {
    if l1.Nil? && l2.Nil? then 0 else 1 + Span(Advance(l1), Advance(l2))
  }

  /**
   * The addition loop from the cursor pair `(l1, l2)` with the pending
   * `carry`: each call is one iteration, emitting the digit `sum % 10` and
   * passing on `floor(sum / 10)`. The loop runs while either cursor is live or
   * a carry is pending.
   */
  function AddLoop(l1: List, l2: List, carry: nat): List
    requires IsDigits(l1) && IsDigits(l2) && carry <= 1
    decreases Span(l1, l2), carry
  {
    if l1.Nil? && l2.Nil? && carry == 0 then Nil
    else
      var sum := Digit(l1) + Digit(l2) + carry;
      Node(sum % 10, AddLoop(Advance(l1), Advance(l2), sum / 10))
  }

  /** `addTwoNumbers`: the digits of the sum, least significant first. */
  function AddTwoNumbers(l1: List, l2: List): (r: List)
    requires IsDigits(l1) && IsDigits(l2)
    ensures IsDigits(r)
    ensures Value(r) == Value(l1) + Value(l2)
    ensures l1.Nil? && l2.Nil? ==> r.Nil?
  {
    AddLoopSum(l1, l2, 0);
    AddLoop(l1, l2, 0)
  }

  /** `createList`: the nodes hold the array's elements in order; an empty array gives `null`. */
  function CreateList(arr: seq<int>): (r: List)
    ensures Length(r) == |arr|
    ensures r.Nil? <==> |arr| == 0
  {
    if |arr| == 0 then Nil else Node(arr[0], CreateList(arr[1..]))
  }

  /** The elements of a list, in order. */
  function Elements(l: List): seq<int>
  {
    match l
    case Nil => []
    case Node(v, rest) => [v] + Elements(rest)
  }

  /** Creating a list and reading its elements back gives the array. */
  lemma {:induction false} ElementsCreateList(arr: seq<int>)
    ensures Elements(CreateList(arr)) == arr
    decreases |arr|
  {
    if |arr| > 0 {
      ElementsCreateList(arr[1..]);
      assert arr == [arr[0]] + arr[1..];
    }
  }

  /** Reading a list's elements and creating a list from them gives the list back. */
  lemma {:induction false} CreateListElements(l: List)
    ensures CreateList(Elements(l)) == l
  {
    match l
    case Nil =>
    case Node(v, rest) =>
      CreateListElements(rest);
      assert Elements(l)[1..] == Elements(rest);
  }

  /** A list built from an array of digits is a digit list. */
  lemma {:induction false} CreateListDigits(arr: seq<int>)
    requires forall k :: 0 <= k < |arr| ==> 0 <= arr[k] <= 9
    ensures IsDigits(CreateList(arr))
    decreases |arr|
  {
    if |arr| > 0 {
      CreateListDigits(arr[1..]);
    }
  }

  /** A digit list of length k stands for a number in [0, 10^k). */
  lemma {:induction false} ValueBounds(l: List)
    requires IsDigits(l)
    ensures 0 <= Value(l) < Pow10(Length(l))
  {
    match l
    case Nil =>
    case Node(v, rest) =>
      ValueBounds(rest);
  }

  /** A digit in front of X reaches 10 * P exactly when X reaches P. */
  lemma CarryThreshold(d: int, x: int, p: int)
    requires 0 <= d <= 9
    ensures d + 10 * x >= 10 * p <==> x >= p
  {
  }

  /** With both lists exhausted the loop emits the pending carry, if any. */
  lemma AddLoopCarryOnly(carry: nat)
    requires carry <= 1
    ensures carry == 0 ==> AddLoop(Nil, Nil, carry) == Nil
    ensures carry == 1 ==> AddLoop(Nil, Nil, carry) == Node(1, Nil)
  {
    if carry == 1 {
      var sum := Digit(Nil) + Digit(Nil) + carry;
      assert sum == 1;
      assert sum % 10 == 1 && sum / 10 == 0;
      assert AddLoop(Nil, Nil, carry) == Node(sum % 10, AddLoop(Nil, Nil, sum / 10));
    }
  }

  /** The emitted digit is the low digit of the remaining total. */
  lemma ValueStep(l1: List, l2: List, carry: nat)
    requires IsDigits(l1) && IsDigits(l2) && carry <= 1
    ensures var sum := Digit(l1) + Digit(l2) + carry;
            Value(l1) + Value(l2) + carry
              == sum % 10 + 10 * (Value(Advance(l1)) + Value(Advance(l2)) + sum / 10)
  {
  }

  /** The cursors stay live together for as many iterations as the longer list has nodes. */
  lemma {:induction false} SpanIsMax(l1: List, l2: List)
    ensures Span(l1, l2) == Max(Length(l1), Length(l2))
    decreases Length(l1) + Length(l2)
  {
    if !(l1.Nil? && l2.Nil?) {
      SpanIsMax(Advance(l1), Advance(l2));
      match l1
      case Nil =>
      case Node(_, _) =>
        match l2
        case Nil =>
        case Node(_, _) =>
    }
  }

  /** The length claim of `AddLoopLength` for the lists after one iteration. */
  ghost predicate LengthClaim(l1: List, l2: List, carry: nat)
    requires IsDigits(l1) && IsDigits(l2) && carry <= 1
  {
    var m := Span(l1, l2);
    Length(AddLoop(l1, l2, carry)) == m + (if Value(l1) + Value(l2) + carry >= Pow10(m) then 1 else 0)
  }

  /** The claim carries over one iteration: one more digit, and the threshold scales by ten. */
  lemma LengthClaimStep(l1: List, l2: List, carry: nat, sum: int)
    requires IsDigits(l1) && IsDigits(l2) && carry <= 1
    requires !(l1.Nil? && l2.Nil?)
    requires sum == Digit(l1) + Digit(l2) + carry
    requires 0 <= sum / 10 <= 1 && IsDigits(Advance(l1)) && IsDigits(Advance(l2))
    requires LengthClaim(Advance(l1), Advance(l2), sum / 10)
    ensures LengthClaim(l1, l2, carry)
  {
    var n1, n2, c := Advance(l1), Advance(l2), sum / 10;
    AddLoopStep(l1, l2, carry, sum);
    ValueStep(l1, l2, carry);
    var m, m' := Span(l1, l2), Span(n1, n2);
    var total, total' := Value(l1) + Value(l2) + carry, Value(n1) + Value(n2) + c;
    assert m == m' + 1;
    assert Pow10(m) == 10 * Pow10(m');
    CarryThreshold(sum % 10, total', Pow10(m'));
  }

  /**
   * The loop emits one digit per position of the longer list, plus one more
   * exactly when a carry is still pending at the end, that is, when the sum
   * reaches 10^max(len l1, len l2).
   */
  lemma {:induction false} AddLoopLength(l1: List, l2: List, carry: nat)
    requires IsDigits(l1) && IsDigits(l2) && carry <= 1
    ensures var m := Span(l1, l2);
            Length(AddLoop(l1, l2, carry)) ==
              m + (if Value(l1) + Value(l2) + carry >= Pow10(m) then 1 else 0)
    decreases Span(l1, l2), carry
  {
    if l1.Nil? && l2.Nil? {
      AddLoopCarryOnly(carry);
    } else {
      var sum := Digit(l1) + Digit(l2) + carry;
      AddLoopDigitsStep(l1, l2, carry);
      AddLoopLength(Advance(l1), Advance(l2), sum / 10);
      LengthClaimStep(l1, l2, carry, sum);
    }
  }

  /**
   * The sum list is as long as the longer input, or one node longer exactly
   * when the sum does not fit in that many digits.
   */
  lemma AddTwoNumbersLength(l1: List, l2: List)
    requires IsDigits(l1) && IsDigits(l2)
    ensures var m := Max(Length(l1), Length(l2));
            && (Length(AddTwoNumbers(l1, l2)) == m || Length(AddTwoNumbers(l1, l2)) == m + 1)
            && (Length(AddTwoNumbers(l1, l2)) == m + 1 <==> Value(l1) + Value(l2) >= Pow10(m))
  {
    AddLoopLength(l1, l2, 0);
    SpanIsMax(l1, l2);
  }

  /** The operands' next cursors are digit lists and the carry stays a bit. */
  lemma AddLoopDigitsStep(l1: List, l2: List, carry: nat)
    requires IsDigits(l1) && IsDigits(l2) && carry <= 1
    ensures IsDigits(Advance(l1)) && IsDigits(Advance(l2))
    ensures 0 <= (Digit(l1) + Digit(l2) + carry) / 10 <= 1
  {
  }

  /** The loop emits digits only, and they stand for the two numbers plus the pending carry. */
  lemma {:induction false} AddLoopSum(l1: List, l2: List, carry: nat)
    requires IsDigits(l1) && IsDigits(l2) && carry <= 1
    ensures IsDigits(AddLoop(l1, l2, carry))
    ensures Value(AddLoop(l1, l2, carry)) == Value(l1) + Value(l2) + carry
    decreases Span(l1, l2), carry
  {
    if !(l1.Nil? && l2.Nil? && carry == 0) {
      var sum := Digit(l1) + Digit(l2) + carry;
      AddLoopStep(l1, l2, carry, sum);
      ValueStep(l1, l2, carry);
      AddLoopSum(Advance(l1), Advance(l2), sum / 10);
    }
  }

  /** One iteration of the loop while a cursor is live or a carry is pending. */
  lemma AddLoopStep(l1: List, l2: List, carry: nat, sum: int)
    requires IsDigits(l1) && IsDigits(l2) && carry <= 1
    requires !(l1.Nil? && l2.Nil? && carry == 0)
    requires sum == Digit(l1) + Digit(l2) + carry
    ensures IsDigits(Advance(l1)) && IsDigits(Advance(l2)) && 0 <= sum / 10 <= 1
    ensures AddLoop(l1, l2, carry) == Node(sum % 10, AddLoop(Advance(l1), Advance(l2), sum / 10))
  {
    assert 0 <= sum <= 19;
    AddLoopDigitsStep(l1, l2, carry);
    assert AddLoop(l1, l2, carry) == Node(sum % 10, AddLoop(Advance(l1), Advance(l2), sum / 10));
  }

  /** Swapping the operands changes nothing, digit for digit. */
  lemma {:induction false} AddLoopCommutes(l1: List, l2: List, carry: nat)
    requires IsDigits(l1) && IsDigits(l2) && carry <= 1
    ensures AddLoop(l1, l2, carry) == AddLoop(l2, l1, carry)
    decreases Span(l1, l2), carry
  {
    if l1.Nil? && l2.Nil? {
      AddLoopCarryOnly(carry);
    } else {
      var sum := Digit(l1) + Digit(l2) + carry;
      var n1, n2 := Advance(l1), Advance(l2);
      AddLoopStep(l1, l2, carry, sum);
      AddLoopStep(l2, l1, carry, sum);
      AddLoopCommutes(n1, n2, sum / 10);
    }
  }

  lemma AddTwoNumbersCommutes(l1: List, l2: List)
    requires IsDigits(l1) && IsDigits(l2)
    ensures AddTwoNumbers(l1, l2) == AddTwoNumbers(l2, l1)
  {
    AddLoopCommutes(l1, l2, 0);
  }

  lemma ExampleLists()
    ensures CreateList([2, 4, 3]) == Node(2, Node(4, Node(3, Nil)))
    ensures CreateList([5, 6, 4]) == Node(5, Node(6, Node(4, Nil)))
    ensures CreateList([7, 0, 8]) == Node(7, Node(0, Node(8, Nil)))
  {
    assert [2, 4, 3][1..] == [4, 3] && [4, 3][1..] == [3] && [3][1..] == [];
    assert [5, 6, 4][1..] == [6, 4] && [6, 4][1..] == [4] && [4][1..] == [];
    assert [7, 0, 8][1..] == [0, 8] && [0, 8][1..] == [8] && [8][1..] == [];
  }

  lemma ExampleSum()
    ensures AddTwoNumbers(Node(2, Node(4, Node(3, Nil))), Node(5, Node(6, Node(4, Nil))))
            == Node(7, Node(0, Node(8, Nil)))
  {
    var a3, b3 := Node(3, Nil), Node(4, Nil);
    var a2, b2 := Node(4, a3), Node(6, b3);
    var a1, b1 := Node(2, a2), Node(5, b2);
    assert IsDigits(a3) && IsDigits(b3);
    assert IsDigits(a2) && IsDigits(b2);
    assert IsDigits(a1) && IsDigits(b1);
    AddLoopCarryOnly(0);
    AddLoopStep(a3, b3, 1, 8);
    AddLoopStep(a2, b2, 0, 10);
    AddLoopStep(a1, b1, 0, 7);
  }

  /** The demonstration: 342 + 465 = 807, as [2, 4, 3] + [5, 6, 4] = [7, 0, 8]. */
  lemma AddTwoNumbersExample()
    ensures IsDigits(CreateList([2, 4, 3])) && IsDigits(CreateList([5, 6, 4]))
    ensures AddTwoNumbers(CreateList([2, 4, 3]), CreateList([5, 6, 4])) == CreateList([7, 0, 8])
  {
    ExampleLists();
    assert IsDigits(Node(3, Nil)) && IsDigits(Node(4, Nil));
    assert IsDigits(Node(4, Node(3, Nil))) && IsDigits(Node(6, Node(4, Nil)));
    ExampleSum();
  }
}
