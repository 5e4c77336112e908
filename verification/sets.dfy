/** Sizes of finite sets. */
module Sets {
  lemma {:induction false} SubsetSize<T>(a: set<T>, b: set<T>)
    requires a <= b
    ensures |a| <= |b|
    decreases a
  {
    if a != {} {
      var x :| x in a;
      SubsetSize(a - {x}, b - {x});
    }
  }

  lemma {:induction false} UnionSize<T>(a: set<T>, b: set<T>)
    ensures |a + b| <= |a| + |b|
    decreases b
  {
    if b != {} {
      var x :| x in b;
      UnionSize(a + {x}, b - {x});
      assert a + {x} + (b - {x}) == a + b;
    }
  }

  /** now is was with `more`, and what was new in it was taken out of `room`. */
  ghost predicate Added<T(!new)>(was: set<T>, room: int, more: set<T>, now: set<T>, left: int) {
    now == was + more && left == room - |more - was|
  }

  lemma AddedNone<T(!new)>(was: set<T>, room: int)
    ensures Added(was, room, {}, was, room)
  {
    assert was + {} == was && {} - was == {};
  }

  lemma AddedShift<T(!new)>(was: set<T>, room: int, more: set<T>, now: set<T>, left: int)
    requires Added(was, room, more, now, left)
    ensures Added(was, room - 1, more, now, left - 1) && (left >= 0 ==> room >= |more - was|)
  {
  }

  lemma AddedTwice<T(!new)>(was: set<T>, room: int, a: set<T>, mid: set<T>, rest: int, b: set<T>, now: set<T>,
                     left: int)
    requires Added(was, room, a, mid, rest) && Added(mid, rest, b, now, left)
    ensures Added(was, room, a + b, now, left)
  {
    CountMore(a, b, was);
    assert was + a + b == was + (a + b);
  }

  /** There is not enough room for all. */
  lemma AddedShort<T(!new)>(was: set<T>, room: int, a: set<T>, mid: set<T>, rest: int, b: set<T>, all: set<T>)
    requires Added(was, room, a, mid, rest) && rest < |b - mid| && a + b <= all
    ensures room < |all - was|
  {
    CountMore(a, b, was);
    SubsetSize((a + b) - was, all - was);
  }

  /** One step that takes one more out of the room and then adds b, or finds too little. */
  lemma AddedStep<T(!new)>(was: set<T>, room: int, a: set<T>, mid: set<T>, rest: int, b: set<T>, now: set<T>,
                    left: int, all: set<T>)
    requires Added(was, room, a, mid, rest) && a + b <= all
    ensures rest < 1 + |b - mid| ==> room - 1 < |all - was|
    ensures Added(mid, rest - 1, b, now, left) ==> Added(was, room - 1, a + b, now, left)
  {
    hide Added;
    AddedShift(was, room, a, mid, rest);
    if rest < 1 + |b - mid| {
      AddedShort(was, room - 1, a, mid, rest - 1, b, all);
    }
    if Added(mid, rest - 1, b, now, left) {
      AddedTwice(was, room - 1, a, mid, rest - 1, b, now, left);
    }
  }

  lemma AddedOne<T(!new)>(was: set<T>, room: int, x: T)
    ensures x in was ==> Added(was, room, {x}, was, room)
    ensures x !in was ==> Added(was, room, {x}, was + {x}, room - 1) && |{x} - was| == 1
  {
    if x in was {
      assert was + {x} == was && {x} - was == {};
    } else {
      assert {x} - was == {x};
    }
  }

  /** What two sets add to a third, one after the other. */
  lemma CountMore<T>(a: set<T>, b: set<T>, d: set<T>)
    ensures |(a + b) - d| == |a - d| + |b - (d + a)|
  {
    var x, y := a - d, b - (d + a);
    assert (a + b) - d == x + y && x * y == {};
  }
}
