/** The controller base: ordered, duplicate-free callback lists (trigger
    methods and timeout methods), their in-order dispatch that stops at the
    first exception, and the resolution of a view signal to a handler by a
    fixed priority of names, called with as many leading arguments as it
    takes. */
module Registry {
  import opened Common

  predicate NoDuplicates<T(==)>(l: seq<T>)
  {
    forall i, j :: 0 <= i < j < |l| ==> l[i] != l[j]
  }

  /** `add_trigger_method` / `add_timeout_method`: append unless present. */
  function Add<T(==)>(l: seq<T>, m: T): (r: seq<T>)
    ensures m in r
    ensures m in l ==> r == l
    ensures m !in l ==> |r| == |l| + 1 && r[..|l|] == l && r[|l|] == m
    ensures NoDuplicates(l) ==> NoDuplicates(r)
  {
    if m in l then l else l + [m]
  }

  /** Position of the first occurrence. */
  function IndexOf<T(==)>(l: seq<T>, m: T): (i: nat)
    requires m in l
    ensures i < |l| && l[i] == m && m !in l[..i]
  {
    if l[0] == m then 0 else 1 + IndexOf(l[1..], m)
  }

  /** `remove_trigger_method` / `remove_timeout_method`: Python's
      `list.remove` (first occurrence) when present; otherwise nothing. */
  function Remove<T(==)>(l: seq<T>, m: T): (r: seq<T>)
    ensures m !in l ==> r == l
    ensures m in l ==> |r| == |l| - 1
    ensures forall x :: x in r ==> x in l
    ensures NoDuplicates(l) ==> NoDuplicates(r) && m !in r
  {
    if m in l then
      var i := IndexOf(l, m);
      var r := l[..i] + l[i + 1..];
      assert forall k :: 0 <= k < |r| ==> r[k] == (if k < i then l[k] else l[k + 1]);
      r
    else l
  }

  /** `reset_trigger_method` / `reset_timeout_method`. */
  function Reset<T>(): (r: seq<T>)
    ensures |r| == 0
  {
    []
  }

  /** Reference definition: the list with every occurrence of m dropped, the
      rest in their original order. */
  function Without<T(==)>(l: seq<T>, m: T): seq<T>
  {
    if |l| == 0 then []
    else if l[0] == m then Without(l[1..], m)
    else [l[0]] + Without(l[1..], m)
  }

  lemma {:induction false} WithoutAbsent<T>(l: seq<T>, m: T)
    requires m !in l
    ensures Without(l, m) == l
    decreases |l|
  {
    if |l| > 0 {
      WithoutAbsent(l[1..], m);
      assert l == [l[0]] + l[1..];
    }
  }

  /** On a duplicate-free list, removing a method is the same as filtering it
      out: the other methods stay, in their order. */
  lemma {:induction false} RemoveKeepsOrder<T>(l: seq<T>, m: T)
    requires NoDuplicates(l)
    ensures Remove(l, m) == Without(l, m)
    decreases |l|
  {
    if m !in l {
      WithoutAbsent(l, m);
    } else if l[0] == m {
      assert m !in l[1..];
      WithoutAbsent(l[1..], m);
      assert IndexOf(l, m) == 0;
    } else {
      var tail := l[1..];
      assert m in tail;
      assert NoDuplicates(tail);
      RemoveKeepsOrder(tail, m);
      var i := IndexOf(tail, m);
      assert IndexOf(l, m) == i + 1;
      assert Remove(l, m) == l[..i + 1] + l[i + 2..];
      assert l[..i + 1] == [l[0]] + tail[..i];
      assert l[i + 2..] == tail[i + 1..];
    }
  }

  /** Adding a new method and removing it again restores the list. */
  lemma AddRemove<T>(l: seq<T>, m: T)
    requires m !in l
    ensures Remove(Add(l, m), m) == l
  {
    var r := l + [m];
    assert IndexOf(r, m) == |l| by {
      IndexOfAppend(l, m);
    }
    assert r[..|l|] == l;
  }

  lemma {:induction false} IndexOfAppend<T>(l: seq<T>, m: T)
    requires m !in l
    ensures IndexOf(l + [m], m) == |l|
    decreases |l|
  {
    if |l| > 0 {
      assert (l + [m])[1..] == l[1..] + [m];
      IndexOfAppend(l[1..], m);
    }
  }

  /** What a dispatch did: the methods called, in order, and how many
      errors were reported to the view. */
  datatype Outcome<T> = Outcome(called: seq<T>, errors: nat)

  /** `handle_trigger_signal` over a snapshot of the list: call each method in
      order; the first one that raises ends the loop and one error is
      reported. */
  function Dispatch<T>(methods: seq<T>, raises: T -> bool): (o: Outcome<T>)
    ensures |o.called| <= |methods| && o.called == methods[..|o.called|]
    ensures o.errors <= 1
    ensures o.errors == 0 <==> forall i :: 0 <= i < |methods| ==> !raises(methods[i])
    ensures o.errors == 0 ==> o.called == methods
    ensures o.errors == 1 ==> |o.called| > 0 && raises(o.called[|o.called| - 1])
    ensures forall k :: 0 <= k < |o.called| - 1 ==> !raises(o.called[k])
    decreases |methods|
  {
    if |methods| == 0 then Outcome([], 0)
    else if raises(methods[0]) then Outcome([methods[0]], 1)
    else
      var rest := Dispatch(methods[1..], raises);
      assert forall i :: 1 <= i < |methods| ==> methods[i] == methods[1..][i - 1];
      Outcome([methods[0]] + rest.called, rest.errors)
  }

  /** A method registered only through Add is called at most once per
      dispatch. */
  lemma DispatchOnce<T>(methods: seq<T>, raises: T -> bool)
    requires NoDuplicates(methods)
    ensures NoDuplicates(Dispatch(methods, raises).called)
  {
  }

  /** `handle_timer_signal`: nothing runs while the view is hidden; otherwise
      the timeout methods are dispatched like trigger methods. */
  function HandleTimerSignal<T>(visible: bool, methods: seq<T>, raises: T -> bool): (o: Outcome<T>)
    ensures !visible ==> o == Outcome([], 0)
    ensures visible ==> o == Dispatch(methods, raises)
  {
    if visible then Dispatch(methods, raises) else Outcome([], 0)
  }

  /** The handler names tried for a view signal, most specific first. */
  function Candidates(name: string, event: string): (c: seq<string>)
    ensures |c| == 4 && c[3] == "on_any"
  {
    ["on_" + name + "_" + event, "on_" + event, "on_" + name, "on_any"]
  }

  /** Index of the first candidate the controller defines, if any. */
  function FirstDefined(cands: seq<string>, defined: string -> bool): (r: Option<nat>)
    ensures r.None? <==> forall i :: 0 <= i < |cands| ==> !defined(cands[i])
    ensures r.Some? ==> r.value < |cands| && defined(cands[r.value])
    ensures r.Some? ==> forall k :: 0 <= k < r.value ==> !defined(cands[k])
    decreases |cands|
  {
    if |cands| == 0 then None
    else if defined(cands[0]) then Some(0)
    else
      match FirstDefined(cands[1..], defined)
      case None => None
      case Some(i) => Some(i + 1)
  }

  /** The four positional arguments a handler may receive. */
  datatype Arg = NameArg | WidgetArg | EventArg | PayloadArg

  const AllArgs: seq<Arg> := [NameArg, WidgetArg, EventArg, PayloadArg]

  /** `_invoke`: a handler declaring n parameters receives the first
      min(n, 4) of (name, widget, event, payload). */
  function InvokeArgs(arity: nat): (args: seq<Arg>)
    ensures |args| == Min(arity, 4)
    ensures forall k :: 0 <= k < |args| ==> args[k] == AllArgs[k]
    ensures arity >= 4 ==> args == AllArgs
    ensures arity == 0 ==> args == []
  {
    if arity >= 4 then AllArgs
    else if arity == 3 then AllArgs[..3]
    else if arity == 2 then AllArgs[..2]
    else if arity == 1 then [AllArgs[0]]
    else []
  }

  /** The result of a view signal: the handler called with its arguments,
      if one was found, and whether an error went to the view. */
  datatype ViewOutcome = ViewOutcome(invoked: Option<(string, seq<Arg>)>, errorReported: bool)

  /** `handle_view_signal`. `defined` says which handler names exist on the
      controller, `arity` how many parameters each declares, and `raises`
      whether calling it raises. */
  function HandleViewSignal(name: string, event: string, defined: string -> bool,
                            arity: string -> nat, raises: string -> bool): (o: ViewOutcome)
    ensures var c := Candidates(name, event);
            && (o.invoked.None? <==> forall i :: 0 <= i < 4 ==> !defined(c[i]))
            && (o.invoked.Some? ==>
                  exists i :: 0 <= i < 4 && c[i] == o.invoked.value.0 && defined(c[i])
                              && (forall k :: 0 <= k < i ==> !defined(c[k])))
            && (o.invoked.Some? ==> o.invoked.value.1 == InvokeArgs(arity(o.invoked.value.0)))
            && (o.errorReported <==> o.invoked.None? || raises(o.invoked.value.0))
  {
    var c := Candidates(name, event);
    match FirstDefined(c, defined)
    case None => ViewOutcome(None, true)
    case Some(i) =>
      var handler := c[i];
      ViewOutcome(Some((handler, InvokeArgs(arity(handler)))), raises(handler))
  }

  /** The most specific handler wins whenever it exists, and `on_any`
      catches a signal nothing else handles. */
  lemma HandlerPriority(name: string, event: string, defined: string -> bool,
                        arity: string -> nat, raises: string -> bool)
    ensures defined("on_" + name + "_" + event) ==>
              HandleViewSignal(name, event, defined, arity, raises).invoked.value.0 == "on_" + name + "_" + event
    ensures !defined("on_" + name + "_" + event) && !defined("on_" + event) && !defined("on_" + name)
            && defined("on_any") ==>
              HandleViewSignal(name, event, defined, arity, raises).invoked.value.0 == "on_any"
  {
  }
}
