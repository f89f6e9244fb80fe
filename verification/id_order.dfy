/** The elements of a set in the order a select returns their rows. */
module IdOrder {

  /** A strict order of all the elements. */
  ghost predicate Orders<T(!new)>(before: (T, T) -> bool) {
    && (forall a, b | a != b :: before(a, b) <==> !before(b, a))
    && (forall a, b | before(a, b) :: a != b)
    && (forall a, b, c | before(a, b) && before(b, c) :: before(a, c))
  }

  lemma AnElement<T>(s: set<T>) returns (x: T)
    requires s != {}
    ensures x in s
  {
    x :| x in s;
  }

  lemma {:induction false} FirstExists<T(!new)>(s: set<T>, before: (T, T) -> bool)
    requires Orders(before) && s != {}
    ensures exists x :: x in s && forall y | y in s && y != x :: before(x, y)
  {
    var x := AnElement(s);
    var others := s - {x};
    if others == {} {
      assert forall y | y in s :: y == x || y in others;
    } else {
      FirstExists(others, before);
      var first :| first in others && forall y | y in others && y != first :: before(first, y);
      var least := if before(x, first) then x else first;
      forall y | y in s && y != least ensures before(least, y) {
        assert y == x || y in others;
      }
      assert least in s;
    }
  }

  function First<T(==, !new)>(s: set<T>, before: (T, T) -> bool): (x: T)
    requires Orders(before) && s != {}
    ensures x in s && forall y | y in s && y != x :: before(x, y)
  {
    FirstExists(s, before);
    var x :| x in s && forall y | y in s && y != x :: before(x, y);
    x
  }

  /** The elements of a set in order. */
  function InOrder<T(==, !new)>(s: set<T>, before: (T, T) -> bool): (list: seq<T>)
    requires Orders(before)
    ensures forall x :: x in list <==> x in s
    ensures forall i, j | 0 <= i < j < |list| :: before(list[i], list[j])
    ensures |list| == |s|
  {
    if s == {} then [] else
      var first := First(s, before);
      [first] + InOrder(s - {first}, before)
  }

  lemma LessOrders()
    ensures Orders((a: int, b: int) => a < b)
  {
  }

  /** The elements of a set in ascending order. */
  function Ascending(s: set<int>): (ids: seq<int>)
    ensures forall x :: x in ids <==> x in s
    ensures forall i, j | 0 <= i < j < |ids| :: ids[i] < ids[j]
    ensures |ids| == |s|
  {
    LessOrders();
    InOrder(s, (a: int, b: int) => a < b)
  }
}
