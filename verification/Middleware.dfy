/** Middleware registration and composition (`runtime/middleware.go`). */
module Middleware {
  import opened Text

  /** A handler turns a request context into an outcome; a middleware wraps a handler. */
  type Handler<!C, R> = C -> R
  type Wrapper<!C, !R> = Handler<C, R> -> Handler<C, R>

  /** The right fold of the registered list: its first middleware is outermost. */
  function Wrap<C, R>(middlewares: seq<Wrapper<C, R>>, handler: Handler<C, R>): Handler<C, R> {
    if middlewares == [] then handler else middlewares[0](Wrap(middlewares[1..], handler))
  }

  class App<!C, !R> {
    var middlewares: seq<Wrapper<C, R>>

    constructor ()
      ensures middlewares == []
    {
      middlewares := [];
    }

    /** `Use`; a nil middleware is ignored. */
    method Use(mw: Option<Wrapper<C, R>>)
      modifies this
      ensures middlewares == if mw.Some? then old(middlewares) + [mw.value] else old(middlewares)
    {
      if mw.None? {
        return;
      }
      middlewares := middlewares + [mw.value];
    }

    /** `applyMiddlewares`: wraps from the last registered middleware to the first. */
    method ApplyMiddlewares(handler: Handler<C, R>) returns (wrapped: Handler<C, R>)
      ensures wrapped == Wrap(middlewares, handler)
    {
      wrapped := handler;
      for i := |middlewares| downto 0
        invariant wrapped == Wrap(middlewares[i..], handler)
      {
        assert middlewares[i..][1..] == middlewares[i + 1..];
        wrapped := middlewares[i](wrapped);
      }
      assert middlewares[0..] == middlewares;
    }
  }

  /** A middleware registered last runs closest to the handler. */
  lemma {:induction false} LastIsInnermost<C, R>(middlewares: seq<Wrapper<C, R>>, mw: Wrapper<C, R>, handler: Handler<C, R>)
    ensures Wrap(middlewares + [mw], handler) == Wrap(middlewares, mw(handler))
  {
    if middlewares == [] {
      assert middlewares + [mw] == [mw];
      assert [mw][1..] == [];
    } else {
      assert (middlewares + [mw])[1..] == middlewares[1..] + [mw];
      LastIsInnermost(middlewares[1..], mw, handler);
    }
  }

  // ----- observing the order -----

  datatype Mark = Enter(name: string) | Leave(name: string)

  /** An outcome together with the marks left on the way to it. */
  datatype Marked<+R> = Marked(result: R, marks: seq<Mark>)

  /** A middleware that does something before its successor, calls it once, and does something after:
      it may change the context on the way in and the outcome on the way out. */
  datatype Around<!C, !R> = Around(name: string, before: C -> C, after: (C, R) -> R) {

    /** The middleware, leaving a mark when it is entered and when it is left. */
    function Wrapper(): Wrapper<C, Marked<R>> {
      (next: Handler<C, Marked<R>>) => (c: C) =>
        var inner := next(before(c));
        Marked(after(c, inner.result), [Enter(name)] + inner.marks + [Leave(name)])
    }
  }

  function Wrappers<C, R>(around: seq<Around<C, R>>): seq<Wrapper<C, Marked<R>>> {
    if around == [] then [] else [around[0].Wrapper()] + Wrappers(around[1..])
  }

  /** The context that reaches the `n`-th middleware, or the handler after the last: every earlier
      registered one has worked on it, in order. */
  function ContextAt<C, R>(around: seq<Around<C, R>>, c: C, n: nat): C
    requires n <= |around|
  {
    if n == 0 then c else around[n - 1].before(ContextAt(around, c, n - 1))
  }

  /** The outcome that leaves the `n`-th middleware: every later registered one has worked on it, in
      reverse order. */
  function OutcomeAt<C, R>(around: seq<Around<C, R>>, c: C, outcome: R, n: nat): R
    requires n <= |around|
    decreases |around| - n
  {
    if n == |around| then outcome else around[n].after(ContextAt(around, c, n), OutcomeAt(around, c, outcome, n + 1))
  }

  function Enters<C, R>(around: seq<Around<C, R>>): seq<Mark> {
    seq(|around|, i requires 0 <= i < |around| => Enter(around[i].name))
  }

  /** Exit marks, last middleware first. */
  function Leaves<C, R>(around: seq<Around<C, R>>): seq<Mark> {
    seq(|around|, i requires 0 <= i < |around| => Leave(around[|around| - 1 - i].name))
  }

  lemma {:induction false} ContextTail<C, R>(around: seq<Around<C, R>>, c: C, n: nat)
    requires 0 < n <= |around|
    ensures ContextAt(around, c, n) == ContextAt(around[1..], around[0].before(c), n - 1)
  {
    if n > 1 {
      ContextTail(around, c, n - 1);
    }
  }

  lemma {:induction false} OutcomeTail<C, R>(around: seq<Around<C, R>>, c: C, outcome: R, n: nat)
    requires 0 < n <= |around|
    ensures ContextAt(around, c, n) == ContextAt(around[1..], around[0].before(c), n - 1)
    ensures OutcomeAt(around, c, outcome, n) == OutcomeAt(around[1..], around[0].before(c), outcome, n - 1)
    decreases |around| - n
  {
    ContextTail(around, c, n);
    if n < |around| {
      OutcomeTail(around, c, outcome, n + 1);
    }
  }

  /** Middlewares are entered in registration order and left in the reverse order: the handler runs on
      the context that all of them have worked on from first to last, and its outcome passes through
      all of them from last to first. */
  lemma {:induction false} OrderOfEntryAndExit<C, R>(around: seq<Around<C, R>>, handler: Handler<C, Marked<R>>, c: C)
    ensures var inner := handler(ContextAt(around, c, |around|));
            Wrap(Wrappers(around), handler)(c) ==
            Marked(OutcomeAt(around, c, inner.result, 0), Enters(around) + inner.marks + Leaves(around))
  {
    hide Wrap, Wrappers, Enters, Leaves, OutcomeAt, ContextAt;
    if around == [] {
      NothingAround(handler, c);
    } else {
      var rest, c1 := around[1..], around[0].before(c);
      var inner := handler(ContextAt(around, c, |around|));
      ContextTail(around, c, |around|);
      OrderOfEntryAndExit(rest, handler, c1);
      WrapAround(around, handler, c);
      OutcomeTail(around, c, inner.result, 1);
      OutcomeFirst(around, c, inner.result);
      MarksAround(around, inner.marks);
    }
  }

  lemma NothingAround<C, R>(handler: Handler<C, Marked<R>>, c: C)
    ensures var inner := handler(ContextAt<C, R>([], c, 0));
            Wrap(Wrappers<C, R>([]), handler)(c) ==
            Marked(OutcomeAt<C, R>([], c, inner.result, 0), Enters<C, R>([]) + inner.marks + Leaves<C, R>([]))
  {
    assert Enters<C, R>([]) == [] && Leaves<C, R>([]) == [];
  }

  lemma OutcomeFirst<C, R>(around: seq<Around<C, R>>, c: C, outcome: R)
    requires around != []
    ensures OutcomeAt(around, c, outcome, 0) == around[0].after(c, OutcomeAt(around, c, outcome, 1))
  {
  }

  /** What the outermost middleware adds to the run of the others. */
  lemma WrapAround<C, R>(around: seq<Around<C, R>>, handler: Handler<C, Marked<R>>, c: C)
    requires around != []
    ensures var inner := Wrap(Wrappers(around[1..]), handler)(around[0].before(c));
            Wrap(Wrappers(around), handler)(c) ==
            Marked(around[0].after(c, inner.result), [Enter(around[0].name)] + inner.marks + [Leave(around[0].name)])
  {
    assert Wrappers(around)[0] == around[0].Wrapper() && Wrappers(around)[1..] == Wrappers(around[1..]);
  }

  lemma MarksAround<C, R>(around: seq<Around<C, R>>, marks: seq<Mark>)
    requires around != []
    ensures Enters(around) + marks + Leaves(around) ==
            [Enter(around[0].name)] + (Enters(around[1..]) + marks + Leaves(around[1..])) + [Leave(around[0].name)]
  {
    assert Enters(around) == [Enter(around[0].name)] + Enters(around[1..]);
    assert Leaves(around) == Leaves(around[1..]) + [Leave(around[0].name)];
  }
}
