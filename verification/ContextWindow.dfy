/**
 The rolling transcript window kept in a Redis list. A push is two commands, `RPUSH` then
 `LTRIM`, and other processes' commands may fall between them.
 */
module ContextWindow {
  import opened Prelude

  /** The position a Redis index names: negative ones count from the end. */
  function Position(index: int, length: nat): int {
    if index < 0 then index + length else index
  }

  /** `LRANGE` and what `LTRIM` keeps: both ends inclusive, clipped to the list. */
  function Range<T>(list: seq<T>, start: int, stop: int): seq<T> {
    var from := Max(0, Position(start, |list|));
    var upto := Min(Position(stop, |list|), |list| - 1);
    if from > upto || from >= |list| then [] else list[from..upto + 1]
  }

  /** One command against the key, or its end by expiry or deletion. */
  datatype Command<T> = Push(value: T) | Trim | Abandon | Clear

  /**
   The list, and what has happened to its key: all pushes since it was last cleared, how
   many pushes still have their trim to come, and how many pushes came after the last trim.
   */
  datatype Store<T> = Store(list: seq<T>, history: seq<T>, pending: nat, sinceTrim: nat)

  function Empty<T>(): Store<T> {
    Store([], [], 0, 0)
  }

  /** `Abandon` is a process that dies after its push and before its trim. */
  function Next<T>(s: Store<T>, window: nat, c: Command<T>): Store<T> {
    match c
    case Push(x) => Store(s.list + [x], s.history + [x], s.pending + 1, s.sinceTrim + 1)
    case Trim => Store(Range(s.list, 0 - window, -1), s.history, if s.pending > 0 then s.pending - 1 else 0, 0)
    case Abandon => s.(pending := if s.pending > 0 then s.pending - 1 else 0)
    case Clear => Store([], [], s.pending, 0)
  }

  function Run<T>(s: Store<T>, window: nat, cs: seq<Command<T>>): Store<T>
    decreases |cs|
  {
    if |cs| == 0 then s else Run(Next(s, window, cs[0]), window, cs[1..])
  }

  /** The list is the recent end of the history, never too short, and too long by `sinceTrim` at most. */
  ghost predicate Window<T>(s: Store<T>, window: nat) {
    && s.list == TakeLast(s.history, |s.list|)
    && Min(window, |s.history|) <= |s.list| <= |s.history|
    && |s.list| <= window + s.sinceTrim
  }

  lemma TrimIsTakeLast<T>(list: seq<T>, window: nat)
    requires window > 0
    ensures Range(list, 0 - window, -1) == TakeLast(list, window)
  {
  }

  /** Reading with `LRANGE 0 -1` gives the whole list. */
  lemma ReadIsWhole<T>(list: seq<T>)
    ensures Range(list, 0, -1) == list
  {
  }

  lemma NextKeepsWindow<T>(s: Store<T>, window: nat, c: Command<T>)
    requires window > 0 && Window(s, window)
    ensures Window(Next(s, window, c), window)
    ensures c.Trim? ==> Next(s, window, c).list == TakeLast(s.history, window)
  {
    match c
    case Push(x) =>
      assert s.list + [x] == TakeLast(s.history + [x], |s.list| + 1);
    case Trim =>
      TrimIsTakeLast(s.list, window);
      assert TakeLast(s.list, window) == TakeLast(s.history, window);
    case Abandon =>
    case Clear =>
  }

  /**
   Under every interleaving of any number of pushes, trims, crashes and expiries, the list is
   a suffix of the history with at least `min(window, history)` and at most
   `window + sinceTrim` elements; with nothing pushed since the last trim it is exactly the
   last `window` elements.
   */
  lemma {:induction false} RunKeepsWindow<T>(s: Store<T>, window: nat, cs: seq<Command<T>>)
    requires window > 0 && Window(s, window)
    ensures Window(Run(s, window, cs), window)
    ensures var end := Run(s, window, cs); end.sinceTrim == 0 ==> end.list == TakeLast(end.history, window)
    decreases |cs|
  {
    if |cs| > 0 {
      NextKeepsWindow(s, window, cs[0]);
      RunKeepsWindow(Next(s, window, cs[0]), window, cs[1..]);
    }
  }

  /** Each trim belongs to a push, and no process dies in between. */
  ghost predicate Paired<T>(s: Store<T>, window: nat, cs: seq<Command<T>>)
    decreases |cs|
  {
    |cs| > 0 ==>
      !cs[0].Abandon? && (cs[0].Trim? ==> s.pending > 0) && Paired(Next(s, window, cs[0]), window, cs[1..])
  }

  lemma {:induction false} SinceTrimBelowPending<T>(s: Store<T>, window: nat, cs: seq<Command<T>>)
    requires Paired(s, window, cs) && s.sinceTrim <= s.pending
    ensures Run(s, window, cs).sinceTrim <= Run(s, window, cs).pending
    decreases |cs|
  {
    if |cs| > 0 {
      SinceTrimBelowPending(Next(s, window, cs[0]), window, cs[1..]);
    }
  }

  /**
   Without crashes the excess is at most the number of trims still to come, so when every
   push has finished the list is exactly the last `window` segments.
   */
  lemma QuiescentWindow<T>(window: nat, cs: seq<Command<T>>)
    requires window > 0 && Paired(Empty(), window, cs)
    ensures var end := Run(Empty(), window, cs);
            && Min(window, |end.history|) <= |end.list| <= window + end.pending
            && end.list == TakeLast(end.history, |end.list|)
            && (end.pending == 0 ==> end.list == TakeLast(end.history, window))
  {
    RunKeepsWindow(Empty(), window, cs);
    SinceTrimBelowPending(Empty(), window, cs);
  }

  // ---- what the counters and the history are ----------------------------------------------------

  /** The values pushed since the last clear. */
  function Pushed<T>(cs: seq<Command<T>>): seq<T> {
    if |cs| == 0 then []
    else
      match cs[|cs| - 1]
      case Push(x) => Pushed(cs[..|cs| - 1]) + [x]
      case Clear => []
      case _ => Pushed(cs[..|cs| - 1])
  }

  /** How many pushes came after the last trim or clear. */
  function Untrimmed<T>(cs: seq<Command<T>>): nat {
    if |cs| == 0 then 0
    else
      match cs[|cs| - 1]
      case Push(_) => Untrimmed(cs[..|cs| - 1]) + 1
      case Abandon => Untrimmed(cs[..|cs| - 1])
      case _ => 0
  }

  /** How many pushes have had no trim and were not abandoned; a trim or a death without a push counts for none. */
  function Unfinished<T>(cs: seq<Command<T>>): nat {
    if |cs| == 0 then 0
    else
      match cs[|cs| - 1]
      case Push(_) => Unfinished(cs[..|cs| - 1]) + 1
      case Clear => Unfinished(cs[..|cs| - 1])
      case _ => Max(0, Unfinished(cs[..|cs| - 1]) - 1)
  }

  lemma {:induction false} RunSnoc<T>(s: Store<T>, window: nat, cs: seq<Command<T>>, c: Command<T>)
    ensures Run(s, window, cs + [c]) == Next(Run(s, window, cs), window, c)
    decreases |cs|
  {
    if |cs| == 0 {
      assert cs + [c] == [c] && Run(Next(s, window, c), window, []) == Next(s, window, c);
    } else {
      assert (cs + [c])[1..] == cs[1..] + [c];
      RunSnoc(Next(s, window, cs[0]), window, cs[1..], c);
    }
  }

  /** From an empty key, the history holds what was pushed since the last clear, and the counters count. */
  lemma {:induction false} RunRecords<T>(window: nat, cs: seq<Command<T>>)
    ensures var end := Run(Empty<T>(), window, cs);
            end.history == Pushed(cs) && end.sinceTrim == Untrimmed(cs) && end.pending == Unfinished(cs)
    decreases |cs|
  {
    if |cs| > 0 {
      var n := |cs| - 1;
      RunRecords(window, cs[..n]);
      RunSnoc(Empty<T>(), window, cs[..n], cs[n]);
      assert cs[..n] + [cs[n]] == cs;
    }
  }

  /** One session's list, as one process sees it. */
  class SegmentList<T> {
    const window: nat
    var list: seq<T>
    ghost var history: seq<T>

    ghost predicate Valid()
      reads this
    {
      window > 0 && list == TakeLast(history, window)
    }

    constructor (window: nat)
      requires window > 0
      ensures Valid() && history == [] && this.window == window
    {
      this.window := window;
      list, history := [], [];
    }

    /** A push that nothing interrupts. */
    method PushSegment(segment: T)
      requires Valid()
      modifies this
      ensures Valid() && history == old(history) + [segment]
    {
      list := list + [segment];
      history := history + [segment];
      TrimIsTakeLast(list, window);
      list := Range(list, 0 - window, -1);
    }

    method ReadContext() returns (segments: seq<T>)
      requires Valid()
      ensures segments == TakeLast(history, window)
    {
      ReadIsWhole(list);
      segments := Range(list, 0, -1);
    }

    method ClearSession()
      requires Valid()
      modifies this
      ensures Valid() && history == [] && list == []
    {
      list, history := [], [];
    }
  }
}
