/** The events a test run sends to its listeners: how they nest, and in which order the listeners get them. */
module EventTrace {
  import opened CStrings

  datatype Scope =
    | Program
    | Iteration(number: nat)
    | SetUp
    | TearDown
    | Case(name: string)
    | Test(caseName: string, testName: string)

  datatype Event = Start(scope: Scope) | End(scope: Scope) | PartResult

  // ---------------------------------------------------------------- how events nest

  /** What may start directly inside what. */
  predicate Fits(parent: Option<Scope>, s: Scope) {
    match parent
    case None => s.Program?
    case Some(Program) => s.Iteration?
    case Some(Iteration(_)) => s.SetUp? || s.TearDown? || s.Case?
    case Some(Case(name)) => s.Test? && s.caseName == name
    case _ => false
  }

  /** User code runs in the innermost scopes and in the set-up and tear-down of test cases. */
  predicate RunsUserCode(s: Scope) { s.SetUp? || s.TearDown? || s.Case? || s.Test? }

  function Innermost(open: seq<Scope>): Option<Scope> { if open == [] then None else Some(open[|open| - 1]) }

  function Step(open: seq<Scope>, e: Event): Option<seq<Scope>> {
    match e
    case Start(s) => if Fits(Innermost(open), s) then Some(open + [s]) else None
    case End(s) => if Innermost(open) == Some(s) then Some(open[..|open| - 1]) else None
    case PartResult => if open != [] && RunsUserCode(open[|open| - 1]) then Some(open) else None
  }

  /** The scopes that are open after the events; none if they do not nest. */
  function Open(events: seq<Event>): Option<seq<Scope>> {
    if events == [] then Some([])
    else
      match Open(events[..|events| - 1])
      case None => None
      case Some(open) => Step(open, events[|events| - 1])
  }

  lemma OpenStep(events: seq<Event>, e: Event)
    ensures Open(events + [e]) == match Open(events) case None => None case Some(open) => Step(open, e)
  {
    assert (events + [e])[..|events|] == events;
  }

  // ---------------------------------------------------------------- the trace of all listeners

  /** A listener, by position, and what it is told. */
  type Entry = (nat, Event)

  function Forwards(count: nat, e: Event): seq<Entry> { seq(count, l => (l, e)) }

  /** The last `count` of the listeners, last one first. */
  function Backwards(listeners: nat, count: nat, e: Event): seq<Entry>
    requires count <= listeners
  {
    seq(count, l requires 0 <= l < count => (listeners - 1 - l, e))
  }

  lemma ForwardsStep(trace: seq<Entry>, count: nat, e: Event)
    ensures trace + Forwards(count, e) + [(count, e)] == trace + Forwards(count + 1, e)
  {
    Associate(trace, Forwards(count, e), [(count, e)]);
    assert Forwards(count + 1, e) == Forwards(count, e) + [(count, e)];
  }

  lemma BackwardsStep(trace: seq<Entry>, listeners: nat, count: nat, e: Event)
    requires count < listeners
    ensures trace + Backwards(listeners, count, e) + [(listeners - 1 - count, e)]
         == trace + Backwards(listeners, count + 1, e)
  {
    Associate(trace, Backwards(listeners, count, e), [(listeners - 1 - count, e)]);
    assert Backwards(listeners, count + 1, e) == Backwards(listeners, count, e) + [(listeners - 1 - count, e)];
  }

  /** The end of a scope is told to the listeners in reverse order, everything else in order. */
  function Heard(listeners: nat, e: Event): seq<Entry> {
    if e.End? then Backwards(listeners, listeners, e) else Forwards(listeners, e)
  }

  function Broadcast(listeners: nat, events: seq<Event>): seq<Entry> {
    if events == [] then []
    else Broadcast(listeners, events[..|events| - 1]) + Heard(listeners, events[|events| - 1])
  }

  lemma BroadcastStep(listeners: nat, events: seq<Event>, e: Event)
    ensures Broadcast(listeners, events + [e]) == Broadcast(listeners, events) + Heard(listeners, e)
  {
    assert (events + [e])[..|events|] == events;
  }

  /** A bracket is one scope as opened by one listener. While a scope is being closed, nothing else happens. */
  datatype Brackets = Brackets(stack: seq<(nat, Scope)>, closing: bool)

  predicate CanStart(listeners: nat, stack: seq<(nat, Scope)>, l: nat, s: Scope) {
    if l > 0 then stack != [] && stack[|stack| - 1] == (l - 1, s)
    else if stack == [] then Fits(None, s)
    else stack[|stack| - 1].0 == listeners - 1 && Fits(Some(stack[|stack| - 1].1), s)
  }

  function Accept(listeners: nat, b: Brackets, e: Entry): Option<Brackets> {
    match e.1
    case Start(s) =>
      if !b.closing && CanStart(listeners, b.stack, e.0, s) then Some(Brackets(b.stack + [(e.0, s)], false)) else None
    case End(s) =>
      if b.stack != [] && b.stack[|b.stack| - 1] == (e.0, s) && (b.closing || e.0 == listeners - 1)
      then Some(Brackets(b.stack[..|b.stack| - 1], e.0 > 0)) else None
    case PartResult =>
      if !b.closing && b.stack != [] && b.stack[|b.stack| - 1].0 == listeners - 1
         && RunsUserCode(b.stack[|b.stack| - 1].1)
      then Some(b) else None
  }

  function After(listeners: nat, b: Option<Brackets>, entries: seq<Entry>): Option<Brackets> {
    if entries == [] then b
    else
      match After(listeners, b, entries[..|entries| - 1])
      case None => None
      case Some(c) => Accept(listeners, c, entries[|entries| - 1])
  }

  /** The brackets that are open after the trace; none if it is not well-bracketed: a listener opens a scope
      after the listeners before it have, and closes it after the listeners after it have. */
  function Bracketed(listeners: nat, trace: seq<Entry>): Option<Brackets> {
    After(listeners, Some(Brackets([], false)), trace)
  }

  lemma {:induction false} AfterConcat(listeners: nat, b: Option<Brackets>, s: seq<Entry>, t: seq<Entry>)
    ensures After(listeners, b, s + t) == After(listeners, After(listeners, b, s), t)
  {
    if t == [] {
      assert s + t == s;
    } else {
      var n := |t| - 1;
      AfterConcat(listeners, b, s, t[..n]);
      assert (s + t)[..|s + t| - 1] == s + t[..n];
    }
  }

  lemma {:induction false} NeverAgain(listeners: nat, entries: seq<Entry>)
    ensures After(listeners, None, entries).None?
  {
    if entries != [] {
      NeverAgain(listeners, entries[..|entries| - 1]);
    }
  }

  function Opened(count: nat, s: Scope): seq<(nat, Scope)> { seq(count, l => (l, s)) }

  function Stack(listeners: nat, open: seq<Scope>): seq<(nat, Scope)> {
    if open == [] then [] else Stack(listeners, open[..|open| - 1]) + Opened(listeners, open[|open| - 1])
  }

  lemma {:induction false} StartsAccepted(listeners: nat, stack: seq<(nat, Scope)>, s: Scope, count: nat)
    requires count <= listeners && CanStart(listeners, stack, 0, s)
    ensures After(listeners, Some(Brackets(stack, false)), Forwards(count, Start(s)))
         == Some(Brackets(stack + Opened(count, s), false))
  {
    if count == 0 {
      assert stack + Opened(count, s) == stack;
    } else {
      var n := count - 1;
      StartsAccepted(listeners, stack, s, n);
      assert Forwards(count, Start(s))[..n] == Forwards(n, Start(s));
      assert stack + Opened(count, s) == stack + Opened(n, s) + [(n, s)];
    }
  }

  lemma {:induction false} EndsAccepted(listeners: nat, stack: seq<(nat, Scope)>, s: Scope, count: nat)
    requires count <= listeners
    ensures After(listeners, Some(Brackets(stack + Opened(listeners, s), false)), Backwards(listeners, count, End(s)))
         == Some(Brackets(stack + Opened(listeners - count, s), 0 < count < listeners))
  {
    if count > 0 {
      var n := count - 1;
      EndsAccepted(listeners, stack, s, n);
      assert Backwards(listeners, count, End(s))[..n] == Backwards(listeners, n, End(s));
      var top := stack + Opened(listeners - n, s);
      assert top[|top| - 1] == (listeners - count, s);
      assert top[..|top| - 1] == stack + Opened(listeners - count, s);
    }
  }

  lemma {:induction false} ResultsAccepted(listeners: nat, stack: seq<(nat, Scope)>, count: nat)
    requires stack != [] && stack[|stack| - 1].0 == listeners - 1 && RunsUserCode(stack[|stack| - 1].1)
    ensures After(listeners, Some(Brackets(stack, false)), Forwards(count, PartResult)) == Some(Brackets(stack, false))
  {
    if count > 0 {
      ResultsAccepted(listeners, stack, count - 1);
      assert Forwards(count, PartResult)[..count - 1] == Forwards(count - 1, PartResult);
    }
  }

  lemma StackTop(listeners: nat, open: seq<Scope>)
    requires listeners > 0
    ensures var stack := Stack(listeners, open);
            && (stack == [] <==> open == [])
            && (open != [] ==> stack[|stack| - 1] == (listeners - 1, open[|open| - 1]))
  {
  }

  lemma HeardAccepted(listeners: nat, open: seq<Scope>, e: Event)
    requires listeners > 0 && Step(open, e).Some?
    ensures After(listeners, Some(Brackets(Stack(listeners, open), false)), Heard(listeners, e))
         == Some(Brackets(Stack(listeners, Step(open, e).value), false))
  {
    StackTop(listeners, open);
    match e
    case Start(s) =>
      StartsAccepted(listeners, Stack(listeners, open), s, listeners);
      assert (open + [s])[..|open|] == open;
    case End(s) =>
      var outer := Stack(listeners, open[..|open| - 1]);
      EndsAccepted(listeners, outer, s, listeners);
      assert outer + Opened(0, s) == outer;
    case PartResult =>
      ResultsAccepted(listeners, Stack(listeners, open), listeners);
  }

  lemma HeardRefused(listeners: nat, open: seq<Scope>, e: Event)
    requires listeners > 0 && Step(open, e).None?
    ensures After(listeners, Some(Brackets(Stack(listeners, open), false)), Heard(listeners, e)).None?
  {
    StackTop(listeners, open);
    var heard, b := Heard(listeners, e), Some(Brackets(Stack(listeners, open), false));
    var first := heard[..1];
    assert first[..0] == [] && first[0] == heard[0];
    assert After(listeners, b, first).None?;
    AfterConcat(listeners, b, first, heard[1..]);
    NeverAgain(listeners, heard[1..]);
    assert first + heard[1..] == heard;
  }

  /** What all listeners hear together is well-bracketed if and only if the events nest. */
  lemma {:induction false} BracketedIffNested(listeners: nat, events: seq<Event>)
    requires listeners > 0
    ensures Bracketed(listeners, Broadcast(listeners, events)) ==
            match Open(events) case None => None case Some(open) => Some(Brackets(Stack(listeners, open), false))
  {
    if events != [] {
      var n := |events| - 1;
      BracketedIffNested(listeners, events[..n]);
      AfterConcat(listeners, Some(Brackets([], false)), Broadcast(listeners, events[..n]), Heard(listeners, events[n]));
      if Open(events[..n]).None? {
        NeverAgain(listeners, Heard(listeners, events[n]));
      } else if Step(Open(events[..n]).value, events[n]).Some? {
        HeardAccepted(listeners, Open(events[..n]).value, events[n]);
      } else {
        HeardRefused(listeners, Open(events[..n]).value, events[n]);
      }
    }
  }

  lemma {:induction false} NoListeners(events: seq<Event>)
    ensures Broadcast(0, events) == []
  {
    if events != [] {
      NoListeners(events[..|events| - 1]);
    }
  }

  lemma AllClosed(listeners: nat, events: seq<Event>)
    requires Open(events) == Some([])
    ensures Bracketed(listeners, Broadcast(listeners, events)) == Some(Brackets([], false))
  {
    if listeners == 0 {
      NoListeners(events);
    } else {
      BracketedIffNested(listeners, events);
    }
  }

  // ---------------------------------------------------------------- what one listener hears

  function Told(l: nat, trace: seq<Entry>): seq<Event> {
    if trace == [] then []
    else Told(l, trace[..|trace| - 1]) + if trace[|trace| - 1].0 == l then [trace[|trace| - 1].1] else []
  }

  lemma {:induction false} ToldConcat(l: nat, s: seq<Entry>, t: seq<Entry>)
    ensures Told(l, s + t) == Told(l, s) + Told(l, t)
  {
    if t == [] {
      assert s + t == s;
    } else {
      var n := |t| - 1;
      ToldConcat(l, s, t[..n]);
      assert (s + t)[..|s + t| - 1] == s + t[..n];
    }
  }

  lemma {:induction false} ToldForwards(l: nat, count: nat, e: Event)
    ensures Told(l, Forwards(count, e)) == if l < count then [e] else []
  {
    if count > 0 {
      ToldForwards(l, count - 1, e);
      assert Forwards(count, e)[..count - 1] == Forwards(count - 1, e);
    }
  }

  lemma {:induction false} ToldBackwards(l: nat, listeners: nat, count: nat, e: Event)
    requires count <= listeners
    ensures Told(l, Backwards(listeners, count, e)) == if listeners - count <= l < listeners then [e] else []
  {
    if count > 0 {
      ToldBackwards(l, listeners, count - 1, e);
      assert Backwards(listeners, count, e)[..count - 1] == Backwards(listeners, count - 1, e);
    }
  }

  /** Every listener is told every event, once and in order. */
  lemma {:induction false} EachListenerIsToldAll(l: nat, listeners: nat, events: seq<Event>)
    requires l < listeners
    ensures Told(l, Broadcast(listeners, events)) == events
  {
    if events != [] {
      var n := |events| - 1;
      EachListenerIsToldAll(l, listeners, events[..n]);
      ToldConcat(l, Broadcast(listeners, events[..n]), Heard(listeners, events[n]));
      ToldForwards(l, listeners, events[n]);
      ToldBackwards(l, listeners, listeners, events[n]);
    }
  }
}
