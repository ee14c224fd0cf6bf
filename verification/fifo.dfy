/**
  The atomic bounded FIFO that the ring buffer is meant to be. A history is the sequence
  of effects of `enqueue` and `dequeue` calls, in the order in which they take effect.
 */
module Fifo {
  import opened Seqs

  datatype Effect<T> =
    | EnqueueTrue(item: T)
    | EnqueueFalse(item: T)
    | DequeueTrue(item: T)
    | DequeueFalse
    | Internal

  /** One atomic effect on the contents `q` of a FIFO of at most `limit` items. When
      `exact`, `false` is returned only by a full, respectively empty, FIFO. */
  ghost predicate Step<T>(limit: int, exact: bool, q: seq<T>, e: Effect<T>, q': seq<T>) {
    match e
    case EnqueueTrue(item) => |q| < limit && q' == q + [item]
    case EnqueueFalse(_) => q' == q && (exact ==> |q| == limit)
    case DequeueTrue(item) => q == [item] + q'
    case DequeueFalse => q' == q && (exact ==> q == [])
    case Internal => q' == q
  }

  /** A whole history that takes contents `q` to contents `q'`. */
  ghost predicate Legal<T(!new)>(limit: int, exact: bool, q: seq<T>, es: seq<Effect<T>>, q': seq<T>)
    decreases |es|
  {
    if es == [] then q' == q
    else
      exists mid: seq<T> ::
        Legal(limit, exact, q, ButLast(es), mid) && Step(limit, exact, mid, Last(es), q')
  }

  /** The items for which `enqueue` returned true. */
  function Enqueued<T>(es: seq<Effect<T>>): seq<T> {
    if es == [] then []
    else if Last(es).EnqueueTrue? then Enqueued(ButLast(es)) + [Last(es).item]
    else Enqueued(ButLast(es))
  }

  /** The items handed out by `dequeue`. */
  function Dequeued<T>(es: seq<Effect<T>>): seq<T> {
    if es == [] then []
    else if Last(es).DequeueTrue? then Dequeued(ButLast(es)) + [Last(es).item]
    else Dequeued(ButLast(es))
  }

  /** Nothing is lost, duplicated, reordered or invented, and the bound holds. */
  lemma {:induction false} Conservation<T(!new)>(limit: int, exact: bool, q: seq<T>, es: seq<Effect<T>>, q': seq<T>)
    requires Legal(limit, exact, q, es, q') && |q| <= limit
    ensures q + Enqueued(es) == Dequeued(es) + q'
    ensures |q'| <= limit
    decreases |es|
  {
    if es != [] {
      var init := ButLast(es);
      var mid: seq<T> :| Legal(limit, exact, q, init, mid) && Step(limit, exact, mid, Last(es), q');
      Conservation(limit, exact, q, init, mid);
      match Last(es) {
        case EnqueueTrue(item) =>
          assert q + Enqueued(es) == (q + Enqueued(init)) + [item];
        case DequeueTrue(item) =>
          assert Dequeued(es) + q' == Dequeued(init) + mid;
        case _ =>
      }
    }
  }

  /** A legal history extended by one legal effect is legal. */
  lemma Extend<T(!new)>(limit: int, exact: bool, q: seq<T>, es: seq<Effect<T>>, mid: seq<T>, e: Effect<T>, q': seq<T>)
    requires Legal(limit, exact, q, es, mid) && Step(limit, exact, mid, e, q')
    ensures Legal(limit, exact, q, es + [e], q')
  {
    AppendParts(es, e);
  }

  // ----- legal histories in closed form -----

  /** What the calls before i have returned allows the answer of call i. */
  ghost predicate Fits<T>(limit: int, exact: bool, es: seq<Effect<T>>, i: nat)
    requires i < |es|
  {
    var came, went := Enqueued(es[..i]), Dequeued(es[..i]);
    match es[i]
    case EnqueueTrue(_) => |came| - |went| < limit
    case EnqueueFalse(_) => exact ==> |came| - |went| == limit
    case DequeueTrue(item) => |went| < |came| && item == came[|went|]
    case DequeueFalse => exact ==> |came| == |went|
    case Internal => true
  }

  lemma {:induction false} FitsInOrder<T>(limit: int, exact: bool, es: seq<Effect<T>>)
    requires forall i :: 0 <= i < |es| ==> Fits(limit, exact, es, i)
    ensures Dequeued(es) <= Enqueued(es)
    decreases |es|
  {
    if es != [] {
      var init := ButLast(es);
      FitsBefore(limit, exact, es);
      FitsInOrder(limit, exact, init);
      assert Fits(limit, exact, es, |es| - 1);
      assert es[..|es| - 1] == init;
    }
  }

  lemma FitsBefore<T>(limit: int, exact: bool, es: seq<Effect<T>>)
    requires es != []
    ensures forall i :: 0 <= i < |es| - 1 ==> (Fits(limit, exact, es, i) <==> Fits(limit, exact, ButLast(es), i))
  {
    assert forall i :: 0 <= i < |es| - 1 ==> ButLast(es)[..i] == es[..i];
  }

  /** The last answer is legal exactly when it fits. */
  lemma LastFits<T>(limit: int, exact: bool, es: seq<Effect<T>>, mid: seq<T>, q: seq<T>)
    requires es != [] && Enqueued(ButLast(es)) == Dequeued(ButLast(es)) + mid
    ensures Step(limit, exact, mid, Last(es), q)
       <==> Fits(limit, exact, es, |es| - 1) && Enqueued(es) == Dequeued(es) + q
  {
    var init, came, went := ButLast(es), Enqueued(ButLast(es)), Dequeued(ButLast(es));
    assert es[..|es| - 1] == init;
    assert |came| - |went| == |mid|;
    match Last(es) {
      case EnqueueTrue(item) =>
        Regroup(went, mid, [item]);
        SamePrefix(went, mid + [item], q);
      case DequeueTrue(item) =>
        Regroup(went, [item], q);
        SamePrefix(went, mid, [item] + q);
        assert mid != [] ==> came[|went|] == mid[0];
      case _ =>
        SamePrefix(went, mid, q);
    }
  }

  lemma SamePrefix<T>(w: seq<T>, a: seq<T>, b: seq<T>)
    ensures w + a == w + b <==> a == b
  {
    if w + a == w + b {
      assert a == (w + a)[|w|..] && b == (w + b)[|w|..];
    }
  }

  /** A history is legal exactly when every answer fits the answers before it, item by item. */
  lemma {:induction false} LegalExactly<T(!new)>(limit: int, exact: bool, es: seq<Effect<T>>, q: seq<T>)
    requires limit >= 0
    ensures Legal(limit, exact, [], es, q)
       <==> (forall i :: 0 <= i < |es| ==> Fits(limit, exact, es, i)) && Enqueued(es) == Dequeued(es) + q
    decreases |es|
  {
    if es != [] {
      var init := ButLast(es);
      FitsBefore(limit, exact, es);
      if Legal(limit, exact, [], es, q) {
        var mid: seq<T> :| Legal(limit, exact, [], init, mid) && Step(limit, exact, mid, Last(es), q);
        LegalExactly(limit, exact, init, mid);
        LastFits(limit, exact, es, mid, q);
      }
      if (forall i :: 0 <= i < |es| ==> Fits(limit, exact, es, i)) && Enqueued(es) == Dequeued(es) + q {
        FitsInOrder(limit, exact, init);
        var mid := Enqueued(init)[|Dequeued(init)|..];
        LegalExactly(limit, exact, init, mid);
        LastFits(limit, exact, es, mid, q);
      }
    }
  }
}
