/**
 * What the attached views observe. A view is known by an identity; every
 * call the controller makes on a view is one event of a single trace, in
 * the order the calls happen. The calls are those of `DrawNumberView`.
 */
module Views {

  /** The identity of an attached view object (one object may be attached twice). */
  type ViewId = nat

  /** The methods of `DrawNumberView`; `R` stands for `DrawResult`. */
  datatype Call<R> =
    | SetObserver
    | Start
    | NumberIncorrect
    | Result(result: R)
    | DisplayError(message: string)

  datatype Event<R> = Event(view: ViewId, call: Call<R>)

  /** A `for` loop over `views` that makes `call` on each. */
  function Broadcast<R>(views: seq<ViewId>, call: Call<R>): (events: seq<Event<R>>)
    ensures |events| == |views|
    decreases |views|
  {
    if views == [] then []
    else Broadcast(views[..|views| - 1], call) + [Event(views[|views| - 1], call)]
  }

  /** The constructor's loop: `setObserver` then `start` on each view. */
  function StartEvents<R>(views: seq<ViewId>): (events: seq<Event<R>>)
    ensures |events| == 2 * |views|
    decreases |views|
  {
    if views == [] then []
    else
      var v := views[|views| - 1];
      StartEvents(views[..|views| - 1]) + [Event(v, SetObserver), Event(v, Start)]
  }

  /** A broadcast reaches every view once, in list order, with the same call. */
  lemma {:induction false} BroadcastAt<R>(views: seq<ViewId>, call: Call<R>)
    ensures forall i | 0 <= i < |views| :: Broadcast(views, call)[i] == Event(views[i], call)
    decreases |views|
  {
    if views != [] {
      var init := views[..|views| - 1];
      BroadcastAt(init, call);
      assert forall i | 0 <= i < |init| :: init[i] == views[i];
    }
  }

  /** A broadcast appended to any history fills its last `|views|` places, in list order. */
  lemma BroadcastLast<R>(front: seq<Event<R>>, views: seq<ViewId>, call: Call<R>)
    ensures var events := front + Broadcast(views, call);
      && |events| - |views| == |front|
      && forall i | 0 <= i < |views| :: events[|front| + i] == Event(views[i], call)
  {
    BroadcastAt(views, call);
  }

  /** Events that reach every view in list order keep doing so after any history. */
  lemma ReachesAfter<R>(front: seq<Event<R>>, back: seq<Event<R>>, views: seq<ViewId>, call: Call<R>)
    requires |back| >= |views|
    requires forall i | 0 <= i < |views| :: back[i] == Event(views[i], call)
    ensures forall i | 0 <= i < |views| :: (front + back)[|front| + i] == Event(views[i], call)
  {
  }

  /** View `i` gets `setObserver` at position `2i` and `start` right after it. */
  lemma {:induction false} StartEventsAt<R>(views: seq<ViewId>)
    ensures forall i | 0 <= i < |views| ::
      StartEvents<R>(views)[2 * i] == Event(views[i], SetObserver) &&
      StartEvents<R>(views)[2 * i + 1] == Event(views[i], Start)
    decreases |views|
  {
    if views != [] {
      var init := views[..|views| - 1];
      StartEventsAt<R>(init);
      assert forall i | 0 <= i < |init| :: init[i] == views[i];
    }
  }

  /** How many events of `events` make `call`. */
  ghost function Count<R>(events: seq<Event<R>>, call: Call<R>): nat
    decreases |events|
  {
    if events == [] then 0
    else Count(events[..|events| - 1], call) + (if events[|events| - 1].call == call then 1 else 0)
  }

  lemma {:induction false} CountAppend<R>(a: seq<Event<R>>, b: seq<Event<R>>, call: Call<R>)
    ensures Count(a + b, call) == Count(a, call) + Count(b, call)
    decreases |b|
  {
    if b != [] {
      var b' := b[..|b| - 1];
      assert (a + b)[..|a + b| - 1] == a + b';
      CountAppend(a, b', call);
    } else {
      assert a + b == a;
    }
  }

  /** A broadcast of `c` makes `call` once per view when `c == call`, never otherwise. */
  lemma {:induction false} CountBroadcast<R>(views: seq<ViewId>, c: Call<R>, call: Call<R>)
    ensures Count(Broadcast(views, c), call) == if c == call then |views| else 0
    decreases |views|
  {
    if views != [] {
      var init := views[..|views| - 1];
      CountBroadcast(init, c, call);
      CountAppend(Broadcast(init, c), [Event(views[|views| - 1], c)], call);
    }
  }

  /** The start-up loop makes no call other than `setObserver` and `start`. */
  lemma {:induction false} CountStartEvents<R>(views: seq<ViewId>, call: Call<R>)
    requires call != SetObserver && call != Start
    ensures Count(StartEvents<R>(views), call) == 0
    decreases |views|
  {
    if views != [] {
      var v := views[|views| - 1];
      var init := views[..|views| - 1];
      CountStartEvents(init, call);
      var pair: seq<Event<R>> := [Event(v, SetObserver), Event(v, Start)];
      CountAppend(StartEvents<R>(init), pair, call);
      assert pair[..1] == [Event(v, SetObserver)];
      assert pair[..1][..0] == [];
      assert Count(pair[..1], call) == 0;
    }
  }

  /** Everything the attached views have been told so far. */
  class ViewTrace<R> {
    var events: seq<Event<R>>

    constructor ()
      ensures events == []
    {
      events := [];
    }

    /** One call on one view. */
    method Deliver(view: ViewId, call: Call<R>)
      modifies this
      ensures events == old(events) + [Event(view, call)]
    {
      events := events + [Event(view, call)];
    }
  }

  /** `for (final DrawNumberView view: views) view.<call>;` */
  method NotifyAll<R>(trace: ViewTrace<R>, views: seq<ViewId>, call: Call<R>)
    modifies trace
    ensures trace.events == old(trace.events) + Broadcast(views, call)
  {
    for i := 0 to |views|
      invariant trace.events == old(trace.events) + Broadcast(views[..i], call)
    {
      assert views[..i + 1][..i] == views[..i];
      trace.Deliver(views[i], call);
    }
    assert views[..|views|] == views;
  }
}
